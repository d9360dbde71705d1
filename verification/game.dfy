/**
 * The game loop's bookkeeping (game.c): handing out points and meeples after a scoring pass,
 * setting up the players, starting, ending and skipping turns, the meeple step of a human
 * turn, and the final standings.
 *
 * Timers, input handling, the camera and the coin animations are not modelled: a turn start
 * reports who moves next (a skip, the bot or a human) instead of scheduling a callback.
 */
module Game {
  import opened Wrappers
  import opened Tiles
  import opened Board
  import opened Walk
  import opened PointsPass
  import Deck
  import opened Turns
  import opened BotSearch

  /** The meeples every player starts with. */
  const MEEPLES: nat := 7

  /** Player.meeple is an unsigned int: decrementing 0 wraps round to the largest value. */
  const UINT_MAX: nat := 0xFFFF_FFFF

  // ---- game_collect_points_cb ---------------------------------------------------------------

  /** The largest of the colour slots i .. MEEPLE_COLOR_COUNT, or 0 (the loop starts from max = 0). */
  function MaxCount(counts: seq<nat>, i: nat): nat
    requires |counts| == MEEPLE_COLOR_COUNT + 1
    decreases MEEPLE_COLOR_COUNT + 1 - i
  {
    if i > MEEPLE_COLOR_COUNT then 0
    else if MaxCount(counts, i + 1) < counts[i] then counts[i] else MaxCount(counts, i + 1)
  }

  lemma {:induction false} MaxCountFacts(counts: seq<nat>, i: nat)
    requires |counts| == MEEPLE_COLOR_COUNT + 1
    ensures forall j | i <= j <= MEEPLE_COLOR_COUNT :: counts[j] <= MaxCount(counts, i)
    ensures MaxCount(counts, i) == 0 || exists j | i <= j <= MEEPLE_COLOR_COUNT :: counts[j] == MaxCount(counts, i)
    decreases MEEPLE_COLOR_COUNT + 1 - i
  {
    if i <= MEEPLE_COLOR_COUNT {
      MaxCountFacts(counts, i + 1);
    }
  }

  /** A colour leads a feature: it has a meeple there and no colour has more. */
  ghost predicate Leads(counts: seq<nat>, col: Color)
    requires |counts| == MEEPLE_COLOR_COUNT + 1
  {
    counts[col] > 0 && forall j | 0 <= j <= MEEPLE_COLOR_COUNT :: counts[j] <= counts[col]
  }

  /** One player's share of an award, given the largest count. */
  function Share(p: Player, points: nat, counts: seq<nat>, max: nat): Player
    requires |counts| == MEEPLE_COLOR_COUNT + 1
  {
    var back := p.(meeple := p.meeple + counts[p.color]);
    if max == 0 || counts[p.color] != max then back else back.(points := p.points + points)
  }

  /**
   * game_collect_points_cb: every player gets back the meeples of their colour taken off the
   * feature, and every player whose colour leads it scores its points, so tied leaders all
   * score and a player without a meeple there never does.
   */
  function CollectCb(ps: seq<Player>, a: Award): (r: seq<Player>)
    requires |a.counts| == MEEPLE_COLOR_COUNT + 1
    ensures |r| == |ps|
    ensures forall i | 0 <= i < |ps| ::
      && r[i].color == ps[i].color && r[i].bot == ps[i].bot
      && r[i].meeple == ps[i].meeple + a.counts[ps[i].color]
      && r[i].points == ps[i].points + (if Leads(a.counts, ps[i].color) then a.points else 0)
  {
    var max := MaxCount(a.counts, 0);
    MaxCountFacts(a.counts, 0);
    seq(|ps|, i requires 0 <= i < |ps| => Share(ps[i], a.points, a.counts, max))
  }

  /** Every award of a pass has a count for each colour slot. */
  predicate FullCounts(awards: seq<Award>)
  {
    forall k | 0 <= k < |awards| :: |awards[k].counts| == MEEPLE_COLOR_COUNT + 1
  }

  /**
   * The callback for each award of a pass, in order: each player ends up with the meeples of
   * their colour the pass took off the board back in supply, and with no fewer points.
   */
  function ApplyAwards(ps: seq<Player>, awards: seq<Award>): (r: seq<Player>)
    requires FullCounts(awards)
    ensures |r| == |ps|
    ensures forall i | 0 <= i < |ps| ::
      && r[i].color == ps[i].color && r[i].bot == ps[i].bot
      && r[i].meeple == ps[i].meeple + Returned(awards, ps[i].color)
      && r[i].points >= ps[i].points
    decreases |awards|
  {
    if |awards| == 0 then ps
    else
      var n := |awards| - 1;
      CollectCb(ApplyAwards(ps, awards[..n]), awards[n])
  }

  // ---- the game state -----------------------------------------------------------------------

  /** The players (with players.index), the turn in progress, the board and the deck. */
  datatype Game = Game(players: seq<Player>, index: int, turn: Turn, board: Board, deck: Deck.Deck)

  /** players.index points at a player. */
  predicate Current(g: Game)
  {
    0 <= g.index < |g.players|
  }

  /** Player i has colour i + 1, as game_init hands them out. */
  predicate Seated(ps: seq<Player>)
  {
    forall i | 0 <= i < |ps| :: ps[i].color == i + 1
  }

  /** Every player's meeples in supply and on the board add up to the seven they started with. */
  ghost predicate MeeplesKept(ps: seq<Player>, b: Board)
  {
    forall i | 0 <= i < |ps| :: ps[i].meeple + |MeepleCells(b, ps[i].color)| == MEEPLES
  }

  /** The `meeple--` of state_turn_end on an unsigned int. */
  function Decrement(n: nat): nat
  {
    if n == 0 then UINT_MAX else n - 1
  }

  // ---- state_turn_end and state_turn_skip -----------------------------------------------------

  /** The placing half of state_turn_end: the tile goes down, and the meeple too unless it has no colour. */
  function PlaceTurn(g: Game): (r: Game)
    requires Current(g) && InBounds(g.turn.x, g.turn.y) && g.board.tileCount < TILE_COUNT
    ensures r.deck == g.deck && r.index == g.index && r.turn == g.turn
    ensures |r.players| == |g.players| && forall i | 0 <= i < |g.players| ::
      r.players[i].color == g.players[i].color && r.players[i].bot == g.players[i].bot
    ensures r.board.tileCount == g.board.tileCount + 1
    ensures r.board.grid.Keys == g.board.grid.Keys + {(g.turn.x, g.turn.y)}
    ensures r.board.grid[(g.turn.x, g.turn.y)].types == g.turn.tile.types
  {
    var b := TilePlace(g.board, g.turn.tile, g.turn.x, g.turn.y);
    if g.turn.meeple.color == NO_COLOR then g.(board := b)
    else
      var p := g.players[g.index];
      g.(board := MeeplePlace(b, g.turn.meeple, g.turn.x, g.turn.y),
         players := g.players[g.index := p.(meeple := Decrement(p.meeple))])
  }

  /** What follows a turn end: the next turn, or (with the deck empty) the end of the game. */
  datatype After = NextTurn | GameOver

  /**
   * state_turn_end: a skipped turn only clears the flag, any other places its tile and meeple;
   * then with the deck empty every remaining feature is scored as at the end of the game,
   * otherwise the features around the turn's cell are scored as during the game.
   */
  function TurnEnd(g: Game): (r: (Game, After))
    requires Current(g) && InBounds(g.turn.x, g.turn.y) && (!g.turn.skip ==> g.board.tileCount < TILE_COUNT)
    ensures r.1 == GameOver <==> Deck.Size(g.deck) == 0
    ensures r.0.deck == g.deck && r.0.index == g.index && !r.0.turn.active && !r.0.turn.skip
    ensures |r.0.players| == |g.players| && forall i | 0 <= i < |g.players| ::
      r.0.players[i].color == g.players[i].color && r.0.players[i].bot == g.players[i].bot
    ensures r.0.board.tileCount == g.board.tileCount + (if g.turn.skip then 0 else 1)
    ensures g.turn.skip ==> r.0.board.grid.Keys == g.board.grid.Keys
    ensures !g.turn.skip ==> r.0.board.grid.Keys == g.board.grid.Keys + {(g.turn.x, g.turn.y)}
    ensures !g.turn.skip ==> r.0.board.grid[(g.turn.x, g.turn.y)].types == g.turn.tile.types
  {
    var g1 := if g.turn.skip then g.(turn := g.turn.(active := false, skip := false))
      else PlaceTurn(g.(turn := g.turn.(active := false)));
    Settle(g1)
  }

  /** The scoring half of state_turn_end: the pass its deck calls for, and its awards handed out. */
  function Settle(g: Game): (r: (Game, After))
    ensures r.1 == GameOver <==> Deck.Size(g.deck) == 0
    ensures r.0.deck == g.deck && r.0.index == g.index && r.0.turn == g.turn
    ensures |r.0.players| == |g.players| && forall i | 0 <= i < |g.players| ::
      r.0.players[i].color == g.players[i].color && r.0.players[i].bot == g.players[i].bot
    ensures SameShape(g.board, r.0.board) && r.0.board.tileCount == g.board.tileCount
  {
    var last := Deck.Size(g.deck) == 0;
    var pass := ScoringPass(g.board, g.turn.x, g.turn.y, last);
    (g.(board := pass.board, players := ApplyAwards(g.players, pass.awards)), if last then GameOver else NextTurn)
  }

  /**
   * The scoring of state_turn_end: collect_all_points in end-of-game mode once the deck is
   * empty, collect_points around the cell in mid-game mode otherwise. Either pass only takes
   * meeples off the board, and hands each one back in an award.
   */
  function ScoringPass(b: Board, x: int, y: int, last: bool): (p: Pass)
    ensures Conserves(b, p)
  {
    if last then
      AllPointsConserve(b, true);
      CollectAllPoints(b, true)
    else
      PointsConserve(b, x, y, false);
      CollectPoints(b, x, y, false)
  }

  /** state_turn_skip: the turn is marked skipped and ended. */
  function TurnSkip(g: Game): (r: (Game, After))
    requires Current(g) && InBounds(g.turn.x, g.turn.y)
    ensures r.0.board.grid.Keys == g.board.grid.Keys && r.0.board.tileCount == g.board.tileCount
  {
    TurnEnd(g.(turn := g.turn.(skip := true)))
  }

  // ---- every meeple is accounted for ---------------------------------------------------------

  /** A tile without a meeple placed on an empty cell leaves every colour's meeple cells as they were. */
  lemma PlaceTileCells(b: Board, t: Tile, x: int, y: int, col: Color)
    requires InBounds(x, y) && b.tileCount < TILE_COUNT && (x, y) !in b.grid && t.meeple.color == NO_COLOR
    requires col != NO_COLOR
    ensures MeepleCells(TilePlace(b, t, x, y), col) == MeepleCells(b, col)
  {
    var r := TilePlace(b, t, x, y);
    forall c ensures c in MeepleCells(r, col) <==> c in MeepleCells(b, col) {
      assert c != (x, y) ==> Get(r, c.0, c.1) == Get(b, c.0, c.1);
    }
  }

  /** A meeple put on a tile without one adds that cell to its colour's cells and to no other colour's. */
  lemma PlaceMeepleCells(b: Board, m: Meeple, x: int, y: int, col: Color)
    requires (x, y) in b.grid && b.grid[(x, y)].meeple.color == NO_COLOR && m.color != NO_COLOR && col != NO_COLOR
    ensures (x, y) !in MeepleCells(b, col)
    ensures col == m.color ==> MeepleCells(MeeplePlace(b, m, x, y), col) == MeepleCells(b, col) + {(x, y)}
    ensures col != m.color ==> MeepleCells(MeeplePlace(b, m, x, y), col) == MeepleCells(b, col)
  {
    var r := MeeplePlace(b, m, x, y);
    forall c | c != (x, y) ensures c in MeepleCells(r, col) <==> c in MeepleCells(b, col) {
      assert Get(r, c.0, c.1) == Get(b, c.0, c.1);
    }
  }

  /**
   * What state_turn_end takes for granted about the turn's meeple: it has no colour, or it is
   * the mover's own and the mover has one in supply.
   */
  ghost predicate Affordable(g: Game)
    requires Current(g)
  {
    g.turn.meeple.color == NO_COLOR || (g.turn.meeple.color == g.players[g.index].color && g.players[g.index].meeple > 0)
  }

  /** Placing the turn moves one meeple (if any) from the mover's supply onto the board. */
  lemma PlaceTurnKeepsMeeples(g: Game)
    requires Current(g) && InBounds(g.turn.x, g.turn.y) && g.board.tileCount < TILE_COUNT
    requires Seated(g.players) && MeeplesKept(g.players, g.board)
    requires (g.turn.x, g.turn.y) !in g.board.grid && g.turn.tile.meeple.color == NO_COLOR && Affordable(g)
    ensures MeeplesKept(PlaceTurn(g).players, PlaceTurn(g).board)
  {
    var x, y := g.turn.x, g.turn.y;
    var b := TilePlace(g.board, g.turn.tile, x, y);
    var r := PlaceTurn(g);
    forall i | 0 <= i < |g.players| ensures r.players[i].meeple + |MeepleCells(r.board, r.players[i].color)| == MEEPLES {
      var col := g.players[i].color;
      PlaceTileCells(g.board, g.turn.tile, x, y, col);
      if g.turn.meeple.color != NO_COLOR {
        PlaceMeepleCells(b, g.turn.meeple, x, y, col);
        if i == g.index {
          assert |MeepleCells(r.board, col)| == |MeepleCells(g.board, col)| + 1;
        } else {
          assert col != g.turn.meeple.color;
        }
      }
    }
  }

  /** Handing out a pass's awards puts every meeple the pass took back into its owner's supply. */
  lemma ScoringKeepsMeeples(ps: seq<Player>, b: Board, p: Pass)
    requires Conserves(b, p) && MeeplesKept(ps, b) && forall i | 0 <= i < |ps| :: ps[i].color != NO_COLOR
    ensures FullCounts(p.awards)
    ensures MeeplesKept(ApplyAwards(ps, p.awards), p.board)
  {
    var r := ApplyAwards(ps, p.awards);
    forall i | 0 <= i < |ps| ensures r[i].meeple + |MeepleCells(p.board, r[i].color)| == MEEPLES {
      assert Returned(p.awards, ps[i].color) + |MeepleCells(p.board, ps[i].color)| == |MeepleCells(b, ps[i].color)|;
    }
  }

  /**
   * Across a turn end, every player's meeples in supply plus on the board stay at seven, as
   * long as the turn places its tile on an empty cell and its meeple (if any) is the mover's
   * own with one in supply.
   */
  lemma TurnEndKeepsMeeples(g: Game)
    requires Current(g) && InBounds(g.turn.x, g.turn.y) && (!g.turn.skip ==> g.board.tileCount < TILE_COUNT)
    requires Seated(g.players) && MeeplesKept(g.players, g.board)
    requires !g.turn.skip ==> (g.turn.x, g.turn.y) !in g.board.grid && g.turn.tile.meeple.color == NO_COLOR && Affordable(g)
    ensures MeeplesKept(TurnEnd(g).0.players, TurnEnd(g).0.board)
  {
    var g1 := if g.turn.skip then g.(turn := g.turn.(active := false, skip := false))
      else PlaceTurn(g.(turn := g.turn.(active := false)));
    if !g.turn.skip {
      PlaceTurnKeepsMeeples(g.(turn := g.turn.(active := false)));
    }
    SettleKeepsMeeples(g1);
  }

  lemma SettleKeepsMeeples(g: Game)
    requires Seated(g.players) && MeeplesKept(g.players, g.board)
    ensures MeeplesKept(Settle(g).0.players, Settle(g).0.board)
  {
    var last := Deck.Size(g.deck) == 0;
    ScoringKeepsMeeples(g.players, g.board, ScoringPass(g.board, g.turn.x, g.turn.y, last));
  }

  // ---- state_turn_start and player_turn_meeple ------------------------------------------------

  /** Four quarter turns or fewer never change the tile's meeple. */
  lemma {:induction false} RotateKeepsMeeple(t: Tile, k: nat)
    ensures RotateN(t, k).meeple == t.meeple && RotateN(t, k).flags == t.flags
  {
    if k > 0 {
      RotateKeepsMeeple(t, k - 1);
    }
  }

  /** Who moves once a turn has started: nobody (the tile fits nowhere), the bot, or a human. */
  datatype Mover = Skipped | BotMoved | HumanMoves

  /** The turn as state_turn_start sets it up: active, the drawn tile, the mover's meeple on the centre. */
  function Started(turn: Turn, tile: Tile, p: Player): Turn
  {
    turn.(active := true, tile := tile, meeple := Meeple(p.color, CENTRE))
  }

  /**
   * The turn bot_turn leaves: the one it was given (no placement scored above -1000), or the
   * drawn tile turned to fit where board_tile_matches accepts it, with no meeple or one of the
   * bot's own that it has in supply.
   */
  ghost predicate BotPlayed(b: Board, start: Turn, p: Player, t: Turn)
  {
    || t == start
    || (&& InBounds(t.x, t.y) && TileMatches(b, t.tile, t.x, t.y)
        && t.tile.meeple == start.tile.meeple && t.active == start.active && t.skip == start.skip
        && (t.meeple.color == NO_COLOR || (t.meeple.color == p.color && p.meeple > 0)))
  }

  lemma ChosenPlays(b: Board, p: Player, start: Turn, chosen: Turn, scored: seq<Scored>)
    requires forall i | 0 <= i < |scored| :: TurnAt(start, p, scored[i])
    requires (forall i | 0 <= i < |scored| :: scored[i].value <= NO_SCORE) ==> chosen == start
    requires (exists i | 0 <= i < |scored| :: scored[i].value > NO_SCORE) ==>
      exists i :: FirstBest(scored, NO_SCORE, i) && chosen == scored[i].turn
    requires chosen == start || (InBounds(chosen.x, chosen.y) && TileMatches(b, chosen.tile, chosen.x, chosen.y))
    ensures BotPlayed(b, start, p, chosen)
  {
    if chosen != start {
      var i :| FirstBest(scored, NO_SCORE, i) && chosen == scored[i].turn;
      RotateKeepsMeeple(start.tile, scored[i].place.rot);
    }
  }

  /**
   * state_turn_start: the next player (cyclically) draws the top tile; if it fits nowhere in
   * any rotation the turn is to be skipped, if the player is a bot bot_turn plays it, and
   * otherwise a human does.
   */
  method TurnStart(g: Game, roll: nat -> real, draws: nat) returns (r: Game, mover: Mover)
    requires 1 <= |g.players| && -1 <= g.index < |g.players| && Deck.Size(g.deck) > 0
    ensures r.index == (g.index + 1) % |g.players| && Current(r)
    ensures r.players == g.players && r.board == g.board
    ensures r.deck.tiles == g.deck.tiles[..|g.deck.tiles| - 1]
    ensures var drawn := g.deck.tiles[|g.deck.tiles| - 1];
      mover == Skipped <==> forall k, x, y | 0 <= k < 4 && InBounds(x, y) :: !TileMatches(g.board, RotateN(drawn, k), x, y)
    ensures var start := Started(g.turn, g.deck.tiles[|g.deck.tiles| - 1], r.players[r.index]);
      && (mover != BotMoved ==> r.turn == start)
      && (mover == BotMoved ==> r.players[r.index].bot && BotPlayed(g.board, start, r.players[r.index], r.turn))
      && (mover == HumanMoves ==> !r.players[r.index].bot)
  {
    var index := (g.index + 1) % |g.players|;
    var (top, deck) := Deck.Pop(g.deck);
    var turn := Started(g.turn, top.value, g.players[index]);
    var t;
    t, mover := Move(g.board, g.players[index], turn, Deck.Size(deck) / |g.players|, roll, draws);
    r := g.(index := index, deck := deck, turn := t);
  }

  /** Who plays a drawn tile: nobody when it fits nowhere, bot_turn for a bot, else a human. */
  method Move(b: Board, p: Player, turn: Turn, remaining: nat, roll: nat -> real, draws: nat) returns (t: Turn, mover: Mover)
    ensures mover == Skipped <==> forall k, x, y | 0 <= k < 4 && InBounds(x, y) :: !TileMatches(b, RotateN(turn.tile, k), x, y)
    ensures mover != BotMoved ==> t == turn
    ensures mover == BotMoved ==> p.bot && BotPlayed(b, turn, p, t)
    ensures mover == HumanMoves ==> !p.bot
  {
    t := turn;
    var valid := TileValid(b, turn.tile);
    if !valid {
      mover := Skipped;
    } else if p.bot {
      var scored;
      t, scored := BotTurn(b, p, turn, remaining, roll, draws);
      ChosenPlays(b, p, turn, t, scored);
      mover := BotMoved;
    } else {
      mover := HumanMoves;
    }
  }

  /**
   * player_turn_meeple: with no meeple left in supply the turn's meeple loses its colour (and
   * the turn ends); otherwise it stays for the player to move about.
   */
  function MeepleChoice(turn: Turn, p: Player): (r: Turn)
    ensures r.meeple.color != NO_COLOR ==> p.meeple > 0
    ensures r.meeple.color == NO_COLOR || r.meeple.color == turn.meeple.color
    ensures r.(meeple := turn.meeple) == turn && r.meeple.pos == turn.meeple.pos
    ensures p.meeple > 0 ==> r == turn
  {
    if p.meeple == 0 then turn.(meeple := turn.meeple.(color := NO_COLOR)) else turn
  }

  /** A human's meeple, once player_turn_meeple has run, is one state_turn_end can place. */
  lemma HumanMeepleAffordable(g: Game)
    requires Current(g) && (g.turn.meeple.color == NO_COLOR || g.turn.meeple.color == g.players[g.index].color)
    ensures Affordable(g.(turn := MeepleChoice(g.turn, g.players[g.index])))
  {
  }

  // ---- game_init ----------------------------------------------------------------------------

  /** The zeroed turn of the memset in game_init. */
  const ZERO_TILE: Tile := Tile(NO_MEEPLE, seq(13, _ => NoType), seq(13, _ => 0), Flags(false, false), 0, 0)

  /** Every tile of the deck is as tile_make left it: without a meeple. */
  ghost predicate Unclaimed(tiles: seq<Tile>)
  {
    forall i | 0 <= i < |tiles| :: tiles[i].meeple.color == NO_COLOR
  }

  lemma UnclaimedJoin(a: seq<Tile>, b: seq<Tile>)
    requires Unclaimed(a) && Unclaimed(b)
    ensures Unclaimed(a + b)
  {
    forall i | 0 <= i < |a + b| ensures (a + b)[i].meeple.color == NO_COLOR {
      if i >= |a| {
        assert (a + b)[i] == b[i - |a|];
      }
    }
  }

  lemma DefTileClear(d: Deck.Def)
    requires Deck.WellFormed(d)
    ensures Deck.DefTile(d).meeple.color == NO_COLOR
  {
    Deck.DefStringLength(d);
    Deck.TileMakeFacts(Deck.DefString(d), d.flags, d.bitmap);
  }

  lemma {:induction false} ExpandUnclaimed(defs: seq<Deck.Def>, k: nat)
    requires forall j | 0 <= j < |defs| :: Deck.WellFormed(defs[j])
    ensures Unclaimed(Deck.Expand(defs, k))
    decreases |defs| - k
  {
    if k < |defs| {
      var d := defs[k];
      ExpandUnclaimed(defs, k + 1);
      DefTileClear(d);
      UnclaimedJoin(seq(d.count, _ => Deck.DefTile(d)), Deck.Expand(defs, k + 1));
    }
  }

  lemma {:induction false} SomeStarting(tiles: seq<Tile>)
    requires Deck.CountStarting(tiles) > 0
    ensures exists i | 0 <= i < |tiles| :: tiles[i].flags.starting
  {
    if !tiles[0].flags.starting {
      SomeStarting(tiles[1..]);
      var i :| 0 <= i < |tiles[1..]| && tiles[1..][i].flags.starting;
      assert tiles[i + 1] == tiles[1..][i];
    }
  }

  /** The deck game_init shuffles: 72 tiles without meeples, one of them the starting tile. */
  lemma DeckInitClear()
    ensures Deck.Size(Deck.DeckInit()) == TILE_COUNT && Unclaimed(Deck.DeckInit().tiles)
    ensures exists i | 0 <= i < TILE_COUNT :: Deck.DeckInit().tiles[i].flags.starting
  {
    Deck.DeckInitFacts();
    Deck.DefsWellFormed();
    ExpandUnclaimed(Deck.DEFS, 0);
    SomeStarting(Deck.DeckInit().tiles);
  }

  /** A shuffle only reorders the tiles, so none of them gains a meeple. */
  lemma ShuffledUnclaimed(a: seq<Tile>, b: seq<Tile>)
    requires multiset(a) == multiset(b) && Unclaimed(a)
    ensures Unclaimed(b)
  {
    forall i | 0 <= i < |b| ensures b[i].meeple.color == NO_COLOR {
      assert b[i] in multiset(a);
      var j :| 0 <= j < |a| && a[j] == b[i];
    }
  }

  /**
   * game_init: a fresh deck is shuffled and a fresh board gets the top tile (the starting
   * tile) at its centre; players get colours 1, 2, ... in order, seven meeples and no points,
   * and the last `bots` of them are bots; then the first turn starts, with the first player.
   */
  method GameInit(humans: int, bots: int, rolls: seq<nat>, roll: nat -> real, draws: nat) returns (g: Game, mover: Mover)
    requires 0 <= humans && 0 <= bots && 1 <= humans + bots <= MEEPLE_COLOR_COUNT
    requires |rolls| == TILE_COUNT
    ensures |g.players| == humans + bots && Seated(g.players) && g.index == 0
    ensures forall i | 0 <= i < |g.players| ::
      g.players[i].meeple == MEEPLES && g.players[i].points == 0 && (g.players[i].bot <==> i >= humans)
    ensures g.board.tileCount == 1 && g.board.grid.Keys == {(BOARD_CENTER, BOARD_CENTER)}
    ensures g.board.grid[(BOARD_CENTER, BOARD_CENTER)].flags.starting
    ensures Deck.Size(g.deck) == TILE_COUNT - 2 && Unclaimed(g.deck.tiles)
    ensures MeeplesKept(g.players, g.board)
  {
    var s := Setup(humans, bots, rolls);
    g, mover := TurnStart(s, roll, draws);
    PrefixUnclaimed(s.deck.tiles, |s.deck.tiles| - 1);
  }

  /** game_init up to the first state_turn_start. */
  method Setup(humans: int, bots: int, rolls: seq<nat>) returns (g: Game)
    requires 0 <= humans && 0 <= bots && 1 <= humans + bots <= MEEPLE_COLOR_COUNT
    requires |rolls| == TILE_COUNT
    ensures |g.players| == humans + bots && Seated(g.players) && g.index == -1
    ensures forall i | 0 <= i < |g.players| ::
      g.players[i].meeple == MEEPLES && g.players[i].points == 0 && (g.players[i].bot <==> i >= humans)
    ensures g.board.tileCount == 1 && g.board.grid.Keys == {(BOARD_CENTER, BOARD_CENTER)}
    ensures g.board.grid[(BOARD_CENTER, BOARD_CENTER)].flags.starting
    ensures Deck.Size(g.deck) == TILE_COUNT - 1 && Unclaimed(g.deck.tiles)
    ensures MeeplesKept(g.players, g.board)
  {
    DeckInitClear();
    var d0 := Deck.DeckInit();
    var d := Deck.Shuffle(d0, rolls);
    ShuffledUnclaimed(d0.tiles, d.tiles);
    var players := Seats(humans, bots);
    var (top, deck) := Deck.Pop(d);
    PrefixUnclaimed(d.tiles, |d.tiles| - 1);
    var board := TilePlace(EMPTY, top.value, BOARD_CENTER, BOARD_CENTER);
    StartBoard(top.value, board);
    var turn := Turn(false, false, BOARD_CENTER, BOARD_CENTER, ZERO_TILE, NO_MEEPLE);
    g := Game(players, -1, turn, board, deck);
  }

  /** The players game_init seats: colours 1, 2, ... in order, the humans first. */
  function Seats(humans: int, bots: int): (ps: seq<Player>)
    requires 0 <= humans && 0 <= bots && humans + bots <= MEEPLE_COLOR_COUNT
    ensures |ps| == humans + bots && Seated(ps)
    ensures forall i | 0 <= i < |ps| :: ps[i].meeple == MEEPLES && ps[i].points == 0 && (ps[i].bot <==> i >= humans)
  {
    seq(humans + bots, i requires 0 <= i < humans + bots => Player(i + 1, MEEPLES, 0, i >= humans))
  }

  /** The start board holds one tile, at the centre, and so no meeple while that tile has none. */
  lemma StartBoard(t: Tile, board: Board)
    requires t.meeple.color == NO_COLOR && board == TilePlace(EMPTY, t, BOARD_CENTER, BOARD_CENTER)
    ensures board.tileCount == 1 && board.grid.Keys == {(BOARD_CENTER, BOARD_CENTER)}
    ensures board.grid[(BOARD_CENTER, BOARD_CENTER)] == t
    ensures forall col: Color | col != NO_COLOR :: MeepleCells(board, col) == {}
  {
    assert board.grid == map[(BOARD_CENTER, BOARD_CENTER) := t];
  }

  lemma PrefixUnclaimed(tiles: seq<Tile>, n: nat)
    requires Unclaimed(tiles) && n <= |tiles|
    ensures Unclaimed(tiles[..n])
  {
    forall i | 0 <= i < n ensures tiles[..n][i].meeple.color == NO_COLOR {
      assert tiles[..n][i] == tiles[i];
    }
  }

  // ---- state_finish -------------------------------------------------------------------------

  /** The order _cmp_players asks qsort for: more points first. */
  predicate Ranked(ps: seq<Player>)
  {
    forall i, j | 0 <= i < j < |ps| :: ps[i].points >= ps[j].points
  }

  /** A player put in front of the first one with fewer points. */
  function Insert(p: Player, ps: seq<Player>): (r: seq<Player>)
    requires Ranked(ps)
    ensures Ranked(r) && multiset(r) == multiset(ps) + multiset{p}
    decreases |ps|
  {
    if |ps| == 0 || p.points >= ps[0].points then
      assert forall i | 0 <= i < |ps| :: ps[0].points >= ps[i].points;
      [p] + ps
    else
      var rest := Insert(p, ps[1..]);
      assert ps == [ps[0]] + ps[1..];
      BelowHead(p, ps, rest);
      [ps[0]] + rest
  }

  /** A ranked list's head, put in front of its tail ranked together with a player who has fewer points, stays first. */
  lemma BelowHead(p: Player, ps: seq<Player>, rest: seq<Player>)
    requires |ps| > 0 && Ranked(ps) && p.points < ps[0].points && Ranked(rest)
    requires multiset(rest) == multiset(ps[1..]) + multiset{p}
    ensures Ranked([ps[0]] + rest)
  {
    forall q | q in rest ensures ps[0].points >= q.points {
      assert q in multiset(rest);
      if q != p {
        assert q in multiset(ps[1..]);
        var i :| 0 <= i < |ps[1..]| && ps[1..][i] == q;
        assert ps[i + 1] == q;
      }
    }
    forall i, j | 0 <= i < j < |[ps[0]] + rest| ensures ([ps[0]] + rest)[i].points >= ([ps[0]] + rest)[j].points {
      assert ([ps[0]] + rest)[j] == rest[j - 1];
      if i > 0 {
        assert ([ps[0]] + rest)[i] == rest[i - 1];
      } else {
        assert rest[j - 1] in rest;
      }
    }
  }

  /**
   * state_finish: the results list every player once, ranked by points, most first. qsort is
   * not stable, so the order of players on equal points is the program's choice; this is one of
   * the orders it may produce.
   */
  function Standings(ps: seq<Player>): (r: seq<Player>)
    ensures Ranked(r) && multiset(r) == multiset(ps)
    decreases |ps|
  {
    if |ps| == 0 then []
    else
      assert ps == [ps[0]] + ps[1..];
      Insert(ps[0], Standings(ps[1..]))
  }
}
