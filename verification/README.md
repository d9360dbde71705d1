# Carcassonne core in Dafny

This project models the game logic of a small C clone of the board game Carcassonne. The model covers:

- the board of 13-segment tiles, edge matching and placement (`src/board.c`);
- the breadth-first walk that follows a road, city or field across tiles, and meeple collection along it (`src/board.c`);
- scoring of roads, cities, monasteries and fields (`src/points.c`);
- the 72-tile deck and its construction from tile definitions (`src/deck.c`);
- the bot's feature evaluation and move search (`src/bot.c`);
- the turn cycle, setup and final standings (`src/game.c`);
- the keyboard menu: pages, buttons, and the player and bot counts (`src/menu.c`).

One Dafny module per source file:

| file | module | source |
|---|---|---|
| `tiles.dfy` | `Wrappers`, `Tiles` | tile layout, `tile_rotate`, `TILE_MATCHES` |
| `board.dfy` | `Board` | `board_tile_*`, `board_meeple_place` |
| `walk.dfy` | `Walk` | `board_bfs` |
| `meeples.dfy` | `Meeples` | `board_collect_meeple`, `board_meeple_matches`, `board_meeple_valid` |
| `points.dfy`, `passes.dfy` | `Points`, `PointsPass` | `points.c` |
| `deck.dfy` | `Deck` | `deck.c` |
| `bot.dfy`, `bot_eval.dfy`, `bot_search.dfy` | `Bot`, `BotEval`, `BotSearch` | `bot.c` |
| `turns.dfy` | `Turns` | the `Player` and `Turn` records of `game.h` |
| `game.dfy` | `Game` | `game.c` |
| `menu.dfy` | `Menu` | `menu.c` |
| `findings.dfy` | `Findings` | concrete boards for the two findings below |

The global state of the C program is passed explicitly and returned as new values:

- the board is a map from cells to tiles;
- the deck is a sequence with its top at the end;
- the players are a sequence.

`board_bfs` is modelled step for step:

- the FIFO queue, including duplicate entries;
- marking at dequeue;
- the first sub-segment per side;
- the `revisit` flag.

Its termination is proved with a potential over the unvisited segment triples. Every callback handed to `board_bfs` is a fold over the walk's trace of visits. This is faithful because no callback changes tile ids or types. `rand()` is supplied by the caller: the shuffle rolls and the bot's noise are parameters.

## Model

| member | source | states |
|---|---|---|
| Tiles.RingSource | src/board.c:153-166 | rotation moves every edge slot three places (one side) clockwise |
| Tiles.Rotate | src/board.c:153-166 | a rotated tile keeps its centre, meeple, flags and bitmap; its edge slots come from one side earlier; `rot` steps modulo 4 |
| Tiles.RotateFour | src/board.c:153-166 | four rotations give back the same tile |
| Tiles.Side | src/board.h:28-55 | a side is the three consecutive edge slots of the 12-slot ring |
| Tiles.Reverse | src/board.c:23-26 | reversal mirrors a sequence index by index |
| Tiles.EdgeMatchesIsReversal | src/board.c:23-28 | two sides match exactly when one is the other read backwards |
| Tiles.EdgeMatchesSymmetric | src/board.c:23-28 | edge matching does not depend on argument order |
| Tiles.MatchesRotationCovariant | src/board.c:23-28 | a vertical match becomes a horizontal match after rotating both tiles |
| Board.Get | src/board.c:168-171 | a cell yields a tile exactly when one was placed there |
| Board.FitsAsMatches | src/board.c:173-195 | the per-side fit test agrees with the vertical and horizontal match macros in all four directions |
| Board.SideFitsSymmetric | src/board.c:173-195 | a tile fits its neighbour on side d iff the neighbour fits it on the opposite side |
| Board.TileMatches | src/board.c:173-195 | a tile may go on a cell iff the cell is empty, has a neighbour, and every present neighbour matches |
| Board.FitsAsMatchesAll | src/board.c:173-195 | the four neighbours are the cells above, right, below and left |
| Board.FitsSomewhere | src/board.c:197-209 | the board scan finds a cell iff the tile fits somewhere in its current rotation |
| Board.TileValid | src/board.c:197-209 | a tile is valid iff some rotation of it fits some in-bounds cell |
| Board.TilePlace | src/board.c:211-216 | placing puts the tile on its cell, raises the tile count by one, and leaves every other cell unchanged |
| Board.PlaceKeepsConsistent | src/board.c:211-216 | placing a tile where it matches keeps every pair of adjacent tiles matching |
| Board.TileTmp | src/board.c:218-221 | a preview sets or clears one cell without touching the tile count or other cells |
| Board.TmpUndo | src/board.c:218-221 | clearing a preview on an empty cell restores the board exactly |
| Board.MeeplePlace | src/board.c:225-230 | a meeple goes on one tile, and the layout and all other cells are unchanged |
| Walk.SideScan | src/board.c:37-63 | a join found on a side leads to the neighbouring tile's segment |
| Walk.Outcomes | src/board.c:37-63 | each tile gives one outcome per side, and joins stay on the board |
| Walk.Enqueue | src/board.c:37-63 | exactly the joined segments not yet visited are queued, at most one per side |
| Walk.StepDecreases | src/board.c:65-107 | every dequeue strictly lowers the walk's potential, so the walk terminates |
| Walk.FirstOccurrence | src/board.c:65-107 | every revisit of a cell is preceded by a first, non-revisit visit to it |
| Walk.TraceExtend | src/board.c:65-107 | a visit's revisit flag is exactly "the cell already has a marked segment" |
| Walk.Bfs | src/board.c:65-107 | an empty start cell gives an empty, closed walk; otherwise the walk visits at least the start |
| Walk.BfsTrace | src/board.c:65-107 | the walk starts at the given segment, and its visited set is exactly the triples of its trace |
| Walk.BfsClosed | src/board.c:65-107 | the visited set is closed under joins, and the result is "closed" iff no visited segment reaches an empty neighbour |
| Walk.RunFirst | src/board.c:65-107 | the first callback is for the start segment, with revisit false |
| Walk.BfsMarksStart | src/board.c:65-107 | the start segment is marked |
| Walk.BfsWithin | src/board.c:65-107 | the walk stays inside every join-closed set containing its start |
| Walk.BfsSubsumes | src/board.c:65-107 | a walk from any segment reached by a walk covers no more than that walk |
| Walk.BfsSameMark | src/board.c:65-107 | two positions with the same segment id give the same walk |
| Walk.BfsSameShape | src/board.c:65-107 | the walk ignores meeples: boards with the same layout give the same walk |
| Meeples.CollectVisit | src/board.c:118-133 | one callback step keeps six counters and the board's layout |
| Meeples.CollectTrace | src/board.c:118-133 | collecting along a trace keeps six counters and the board's layout |
| Meeples.CollectMeeple | src/board.c:135-149 | collection fails exactly when the start cell is empty |
| Meeples.CollectRemoves | src/board.c:135-149 | with removal, every meeple standing on the walk is counted per colour and taken off, and nothing else changes |
| Meeples.CollectCounts | src/board.c:135-149 | without removal the board is unchanged and a colour gets a non-zero count exactly when one of its meeples stands on the walk |
| Meeples.CollectTwice | src/board.c:135-149 | a second removing collection of the same feature finds no meeple and changes nothing |
| Meeples.ClaimsUnchanged | src/board.c:118-133 | visiting a segment that holds no new meeple leaves the claims per colour unchanged |
| Meeples.MeepleMatches | src/board.c:232-247 | a meeple may stand on a segment iff the tile exists and nobody holds the feature it belongs to |
| Meeples.MeepleValid | src/board.c:249-276 | the thirteen flags say, position by position, whether a meeple may stand there |
| Meeples.ValidAtSameId | src/board.c:249-276 | positions of one segment are valid or invalid together |
| Points.TallyMarks | src/points.c:19-24 | after a tally, the marked set is the old marks plus the walk's triples |
| Points.TallyCounts | src/points.c:19-24 | a tally pays once per cell whose segment was not marked before |
| Points.AllFresh | src/points.c:19-24 | on an unmarked walk every visited cell is paid |
| Points.NoneFresh | src/points.c:19-24 | on an already marked walk no cell is paid |
| Points.RoadScore | src/points.c:81-97 | a road pays one point per tile when closed or at the end of the game, and nothing when already paid |
| Points.CityScore | src/points.c:101-118 | a city pays two points per tile and pennant when closed, one at the end of the game, and nothing when already paid |
| Points.PaidOnce | src/points.c:19-24 | after one segment of a feature is paid, any other segment of the same feature pays nothing |
| Points.MonasteryPoints | src/points.c:122-133 | a monastery pays the tiles in its 3x3 block when surrounded or at the end, and at most 9 |
| Points.Phase1Facts | src/points.c:28-51 | the field walk marks its triples and collects exactly the city segments bordering fresh field segments |
| Points.Phase1Cities | src/points.c:28-51 | the cities gathered by a field are those bordering its walk |
| Points.ScanIndex | src/points.c:62-73 | the board scan reaches every cell and position |
| Points.CityScanFacts | src/points.c:53-77 | the scan pays 3 per closed city, starts each city once, and covers every bordering city |
| Points.FieldScore | src/points.c:53-77 | a field pays only at the end of the game, 3 points per distinct closed city it borders |
| Points.SingleMarkScan | src/points.c:53-77 | a field bordering one city gets 3 iff that city is closed |
| Points.ScoringSame | src/points.c:81-133 | scoring ignores meeples: boards with the same layout and ids score the same |
| PointsPass.PointsJobs | src/points.c:159-174 | one placement scores 22 jobs: 13 positions of the tile and 9 monastery cells around it |
| PointsPass.FeatureConserves | src/points.c:135-157 | scoring a feature returns exactly the meeples it takes off the board |
| PointsPass.PointsConserve | src/points.c:159-174 | scoring around a tile conserves meeples, and an empty cell scores nothing |
| PointsPass.AllPointsConserve | src/points.c:176-188 | final scoring of the whole board conserves meeples |
| PointsPass.FeatureTakes | src/points.c:135-157 | scoring only removes meeples, and a paid feature is left with none |
| PointsPass.FeatureNothingLeft | src/points.c:135-157 | rescoring a feature whose meeples are gone pays nobody and changes nothing |
| PointsPass.CollectPointsTwice | src/points.c:159-174 | scoring the same placement twice pays nobody the second time |
| PointsPass.TakenCells | src/points.c:135-157 | the meeples of each colour left on the board are those before minus those taken |
| PointsPass.FewerClaimed | src/points.c:135-157 | a board with fewer meeples has no more claimed cells |
| Deck.FlagsOf | src/deck.c:33-41 | a tile is starting iff its flags contain 'S', and has a pennant iff they contain 'P' |
| Deck.TileMakeFacts | src/deck.c:12-59 | blank slots get no type and id 0; other slots get their letter's type; two slots share an id iff they share a key; the tile has no meeple and rotation 0 |
| Deck.Push | src/deck.c:82-86 | pushing n copies grows the deck by n and keeps the tiles below |
| Deck.Pop | src/deck.c:93-96 | pop fails only on an empty deck, and otherwise returns the top and shrinks the deck by one |
| Deck.PushPop | src/deck.c:82-96 | popping right after pushing one tile returns that tile and the old deck |
| Deck.Swap | src/deck.c:61-67 | a swap exchanges two entries, keeps the rest, and is a permutation |
| Deck.Shuffle | src/deck.c:69-80 | the shuffle is a permutation and leaves the starting tile on top |
| Deck.ExpandFacts | src/deck.c:98-102 | expanding the definitions gives their total count of tiles and of starting tiles |
| Deck.DefsTotals | src/deck.c:104-135 | the definition table describes 72 tiles, one of them starting |
| Deck.DeckInitFacts | src/deck.c:104-135 | the new deck holds 72 tiles, exactly one of them starting |
| Findings.LowerTileMake | src/deck.c:116 | tile line 6 builds the tile used in the field counterexample |
| Findings.LowerIsDeckTile | src/deck.c:116 | that tile is really the tile of definition line 6 |
| Findings.UpperIsLowerTurnedTwice | src/board.c:153-166 | the upper tile of the counterexample is the same tile turned twice |
| Findings.UpperFieldOutcomes | src/board.c:37-63 | the field segment of the upper tile joins nothing |
| Findings.UpperFieldWalk | src/board.c:65-107 | the field walk visits the upper tile alone |
| Findings.CityOutcomes | src/board.c:37-63 | the two city halves join each other |
| Findings.CityWalkClosed | src/board.c:65-107 | the city of the counterexample is closed |
| Findings.FieldAsWrittenScoresNothing | src/points.c:34-51 | with the line-49 indexing, the field bordering that closed city scores 0 |
| Findings.FieldScoresClosedCity | src/points.c:53-77 | with the intended indexing, the same field scores 3 |
| Bot.TileCountsTotal | src/bot.c:37-39 | the table of tile counts by surrounding sums to 72 |
| Bot.RectSumBound | src/bot.c:61-64 | any block of the table sums to at most 72 |
| Bot.MiddleSlot | src/bot.c:43-45 | the slot inspected on side d is its middle one |
| Bot.FacingSlot | src/bot.c:54 | the neighbour's facing slot is six places round the ring |
| Bot.Surroundings | src/bot.c:41-59 | the counts of unknown, city and road sides are the sides of each class, at most four in all |
| Bot.FittingSum | src/bot.c:61-64 | the table summed over every way the unknown sides could turn out stays within the 72 tiles |
| Bot.TilesFitting | src/bot.c:61-64 | at most 72 tiles fit a cell |
| Bot.IsolatedCellFitsAll | src/bot.c:61-64 | every tile fits a cell with no neighbours |
| Bot.TileProbability | src/bot.c:35-67 | the chance that a cell will be filled is between 0 and 1 |
| Bot.ChanceFacts | src/bot.c:66 | no draws give chance 0; more draws never lower it; share 0 gives 0 and share 1 gives 1 |
| Bot.ProbabilityFacts | src/bot.c:35-67 | no tiles left gives 0; more tiles left never lowers the chance; a cell nothing fits gives 0; an isolated cell gives 1 |
| Bot.FeatureValue | src/bot.c:78-83 | a feature's value lies between its open points and its full points, weighted by its completion chance |
| Bot.Mix | src/bot.c:78-83 | the weighting is a convex mix of full and open points |
| Bot.Weighted | src/bot.c:78-83 | the probability-weighted value lies between open and full points, and is the full value at certainty and the open value at zero |
| Bot.StandingFacts | src/bot.c:87-99 | the strongest opponent count is the maximum over all other colours |
| Bot.RelativeValue | src/bot.c:87-99 | an unheld feature is worth 0; one the player leads or ties is worth its value; one an opponent leads is worth its negated value |
| Bot.TraceStamps | src/bot.c:101-122 | every segment of the walk gets the feature's id, and no other id changes |
| Bot.CbVisitPoints | src/bot.c:101-122 | a first visit adds the tile's scaled value and a revisit adds nothing |
| Bot.TracePoints | src/bot.c:101-122 | a feature's points are the scaled value of the distinct cells on its walk |
| Bot.SideChancesFacts | src/bot.c:101-122 | every open side gets its cell marked, and the chance only shrinks, to at most each marked cell's probability |
| Bot.TraceChances | src/bot.c:101-122 | along a walk, the completion chance only shrinks |
| Bot.TraceCoverage | src/bot.c:101-122 | every empty cell adjoining the walk is marked |
| Bot.TraceMeeples | src/bot.c:101-122 | the meeple count of a colour rises iff that colour holds a segment of the walk |
| Bot.MonasteryFacts | src/bot.c:125-149 | a monastery's points count its filled block cells, and its chance is at most each empty cell's probability |
| Bot.EvaluateFeatureFacts | src/bot.c:125-149 | the evaluated feature has the segment's type and the given id, and a chance in [0, 1] |
| Bot.EvaluatedMonastery | src/bot.c:125-149 | a monastery's points are the size of its 3x3 block, it has no meeples, and only its own segment is stamped |
| Bot.EvaluatedWalk | src/bot.c:125-149 | a road or city is worth the scaled value of its walk's cells, and exactly its segments are stamped |
| Bot.WalkEvaluation | src/bot.c:125-149 | a road or city is evaluated by folding the callback over the walk's trace |
| Bot.EvaluatedMeeples | src/bot.c:125-149 | a colour appears among a feature's meeples iff it holds a segment of the feature |
| Bot.EvaluateFeature | src/bot.c:125-149 | the completion chance is at most the fill probability of every empty cell the feature needs |
| Bot.EvaluateFeatureChance | src/bot.c:114-116 | with fresh marks, every needed empty cell bounds the chance |
| Bot.FeatureIgnoresIds | src/bot.c:125-149 | a feature's evaluation does not depend on the earlier stamps |
| Bot.EvaluateFeatureStamps | src/bot.c:125-149 | the start segment and every walked segment get the new id, and older stamps are kept |
| Bot.TraceMarked | src/bot.c:114-116 | a walk whose adjoining cells are all marked already keeps its chance unchanged |
| Bot.ReevaluatedIsCertain | src/bot.c:69 | evaluating a road or city again with the marks left over gives it chance 1 |
| BotEval.AddFeatureFacts | src/bot.c:152-171 | each new feature gets the next id and its segments are stamped |
| BotEval.EvaluateSegment | src/bot.c:163-168 | a field or an already numbered mark is skipped; any other segment starts the next feature and is covered by it, and no earlier number is lost |
| BotEval.EvaluateCell | src/bot.c:159-169 | after a placed tile's thirteen segments every non-field segment of that tile is covered |
| BotEval.EvaluateAllFeatures | src/bot.c:152-171 | every road, city and monastery segment on the board is covered by a numbered feature evaluated from the board |
| BotEval.WeighFacts | src/bot.c:185-219 | counting a feature draws noise, includes its segments, and takes a better meeple spot only for the player's own unheld feature with meeples left |
| BotEval.Count | src/bot.c:185-219 | fields, empty cells and counted features change nothing; a new feature includes its whole walk |
| BotEval.Exclude | src/bot.c:212-218 | an old feature id is excluded once and subtracted from the sum |
| BotEval.ExcludeFacts | src/bot.c:212-218 | excluding keeps the turn's running sum equal to the excluded features' values |
| BotEval.TurnHelper | src/bot.c:185-219 | fields, empty cells and segments without id are skipped |
| BotEval.HelperFacts | src/bot.c:185-219 | the helper excludes exactly the touched old feature and keeps the turn invariant |
| BotEval.HelperStepFacts | src/bot.c:185-219 | every helper call draws noise, excludes what it touches, and keeps the invariant |
| BotEval.RunCallsDraws | src/bot.c:222-272 | noise draws only advance across the helper calls |
| BotEval.RunCallsKeeps | src/bot.c:222-272 | the turn invariant holds after every helper call |
| BotEval.RunCallsStamps | src/bot.c:222-272 | the excluded ids are exactly the stamps of the touched old features |
| BotEval.EvaluateTurn | src/bot.c:222-272 | the chosen meeple is the player's, on an edge middle or the centre, and only with meeples left; excluded ids are distinct old features |
| BotEval.EvaluateTurnRestores | src/bot.c:224-268 | the preview tile is removed again, so the board comes back unchanged |
| BotSearch.PlacementsFacts | src/bot.c:275-294 | the scan lists exactly the accepted placements, in scan order |
| BotSearch.Score | src/bot.c:275-294 | one score per scanned placement |
| BotSearch.ScoreOne | src/bot.c:280-286 | the weighed turn is the given one moved to the placement, turned by its rotation, with a meeple the player can place |
| BotSearch.ScoreFacts | src/bot.c:275-294 | every scanned placement is evaluated in its own slot, in order, as a turn moved there |
| BotSearch.ChooseFacts | src/bot.c:275-294 | the first strictly best placement wins, and with none better the turn is unchanged |
| BotSearch.PlacementsFit | src/bot.c:275-294 | the candidate placements are exactly the fitting rotations and cells |
| BotSearch.ScoredFacts | src/bot.c:275-294 | every fitting placement is scored once, in scan order |
| BotSearch.ScoredTurnFits | src/bot.c:275-294 | a scored turn puts a fitting rotation on its cell |
| BotSearch.BotTurn | src/bot.c:275-294 | the bot scores every fitting placement and plays the first best one, or leaves the turn alone if none beats the floor |
| Game.MaxCountFacts | src/game.c:74-86 | the leading meeple count is the maximum over all colours |
| Game.CollectCb | src/game.c:72-101 | every player gets their meeples back, and the points go to each player tied for the lead |
| Game.ApplyAwards | src/game.c:72-101 | scoring returns each player's meeples and never lowers points |
| Game.PlaceTurn | src/game.c:164-172 | the turn's tile goes on its cell and the tile count rises by one |
| Game.TurnEnd | src/game.c:160-189 | the game ends iff the deck is empty; a skipped turn places nothing, otherwise the tile goes down |
| Game.Settle | src/game.c:174-186 | scoring keeps the layout, the deck and the seats |
| Game.ScoringPass | src/game.c:174-186 | the scoring pass conserves meeples |
| Game.TurnSkip | src/game.c:191-195 | a skipped turn places no tile |
| Game.PlaceTurnKeepsMeeples | src/game.c:160-172 | each player's supply plus their meeples on the board stays seven after a placement |
| Game.ScoringKeepsMeeples | src/game.c:72-101 | scoring keeps each player's supply plus board meeples at seven |
| Game.TurnEndKeepsMeeples | src/game.c:160-189 | a whole turn end keeps each player's meeple total at seven |
| Game.SettleKeepsMeeples | src/game.c:174-186 | settling the score keeps each player's meeple total at seven |
| Game.ChosenPlays | src/bot.c:275-294 | the bot's chosen turn is the drawn tile unchanged or a fitting placement with an affordable meeple of its own colour |
| Game.TurnStart | src/game.c:138-158 | the next player draws the top tile; the turn is skipped iff no rotation fits; a bot plays a fitting move; a human gets the turn |
| Game.Move | src/game.c:149-157 | the turn is skipped iff the tile fits nowhere, bots move themselves, humans are handed the turn |
| Game.MeepleChoice | src/game.c:226-236 | a meeple is kept only if the player has one left |
| Game.HumanMeepleAffordable | src/game.c:226-236 | after the meeple step the turn's meeple is affordable |
| Game.DeckInitClear | src/deck.c:104-135 | the new deck has 72 tiles without meeples, one of them starting |
| Game.ShuffledUnclaimed | src/deck.c:69-80 | shuffling keeps the tiles free of meeples |
| Game.GameInit | src/game.c:340-378 | players take seats with 7 meeples and 0 points, bots after humans; the starting tile sits alone at the centre; 70 tiles remain after the first draw |
| Game.Setup | src/game.c:340-374 | before the first turn, the deck holds 71 tiles and nobody is current |
| Game.Seats | src/game.c:354-363 | seats get distinct colours, 7 meeples, 0 points, and bots after humans |
| Game.StartBoard | src/game.c:365-366 | the starting tile alone sits at the centre and no meeple is on the board |
| Game.Insert | src/game.c:120-123 | inserting into ranked standings keeps them ranked and adds the player |
| Game.Standings | src/game.c:125-136 | final standings rank the players by points and are a permutation of them |
| Menu.PlayerAdd | src/menu.c:149-156 | one more player unless there are five; bots are cut only as far as needed to keep at most five seats; a valid table stays valid |
| Menu.PlayerSub | src/menu.c:158-165 | one player fewer unless there are none; bots are added only as far as needed to keep two seats; a valid table stays valid |
| Menu.BotAdd | src/menu.c:167-174 | one more bot unless there are five; players are cut only as far as needed to keep at most five seats; a valid table stays valid |
| Menu.BotSub | src/menu.c:176-183 | one bot fewer unless there are none; players are added only as far as needed to keep two seats; a valid table stays valid |
| Menu.PlayerAddSub | src/menu.c:149-165 | adding and removing a player undo each other, in either order, away from the seat limits |
| Menu.BotAddSub | src/menu.c:167-183 | adding and removing a bot undo each other, in either order, away from the seat limits |
| Menu.ApplyChanges | src/menu.c:149-183 | any series of count changes keeps two to five seats |
| Menu.AllBots | src/menu.c:167-174 | five presses of bot-add from the default table reach five bots and no players |
| Menu.Reachable | src/menu.c:149-183 | every valid table of players and bots can be reached from the start |
| Menu.Buttons | src/menu.c:80-114 | each page has one to three buttons |
| Menu.MenuInit | src/menu.c:232-244 | the menu opens on the start page, every page shown with nothing selected, and a valid table |
| Menu.Open | src/menu.c:118-122 | opening a page selects its first button and leaves other pages alone |
| Menu.Do | src/menu.c:132-220 | actions keep the menu well formed and the table valid; only arrow actions change the table, and they stay on the page; a started game gets the menu's table |
| Menu.Select | src/menu.c:270-291 | UP and DOWN/TAB move the selection with wrap-around, and the first key selects button 0 |
| Menu.SelectUpDown | src/menu.c:270-291 | UP and DOWN undo each other on a selected button |
| Menu.Press | src/menu.c:253-268 | only ENTER, LEFT and RIGHT do anything to a button; a press keeps the menu well formed and the table valid |
| Menu.Run | src/menu.c:43-45 | running an absent action does nothing |
| Menu.Keydown | src/menu.c:270-297 | a key keeps the menu well formed and the table valid, and any game it starts has a valid table |
| Menu.HiddenIgnores | src/menu.c:270-291 | a hidden page ignores every key but ESCAPE |
| Menu.EscapeTogglesPause | src/menu.c:194-198 | ESCAPE on the game page toggles it and pauses the game exactly when the page shows |
| Menu.OnFinish | src/menu.c:224-228 | a finished game opens the results page |
| Menu.FinishThenClose | src/menu.c:215-220 | ENTER on the results page ends the game and returns to the start page |
| Menu.KeysKeepConfig | src/menu.c:293-297 | any key sequence keeps the table valid and starts only valid games |

## Left out

- Rendering, textures, fonts, animations, the camera (`view_*`), timers (`set_timeout`, `game_tick`, `menu_tick`) and `spring.c`, `resources.c`, `main.c`, `utils.h` are not modelled. They do not change the game state.
- Keyboard handling inside a game (`keydown_tile`, `keydown_meeple`, `game_keydown`) is not modelled. A human's placement enters the model as the `Turn` value the turn end consumes.
- `rand()` is a parameter: the shuffle takes a sequence of rolls, and the bot takes a noise function and a draw counter.
- Floating point is modelled as exact reals, with `pow` as repeated multiplication. Rounding and precision are not modelled.
- Unsigned overflow of the point and meeple counters is not modelled. Counters are unbounded naturals.
- The fixed-size arrays and the ring buffer behind `board_bfs`'s queue are sequences. Their capacities are assumed large enough for a 72-tile game.
- The tie order of `qsort` in `state_finish` is not fixed by the C library. Game.Standings states only the ranking and the permutation.
- The results table rendering (`menu_results_render`) and the stored `GameResults` are not modelled.
- Game.TurnStart: if no placement scores above -1000, the bot keeps the started turn unchanged. That turn has the previous cell and a meeple on the centre. The model states only that the turn is unchanged, not that it fits or that the meeple is affordable.
- Menu.Press: a started game's table is stated to be valid rather than equal to the menu's table.
- Menu.Keydown: a started game's table is stated to be valid rather than equal to the menu's table.
- Bot.EvaluateFeature: evaluates every feature with `C_PROB` cleared, the corrected half of the second finding below. The program keeps the marks of all earlier evaluations (src/bot.c:69, 114-116), so from the second evaluation on a shared empty cell is skipped and its probability is not multiplied in. Modelling the as-written bot would need the marks threaded through every analysis, turn and game; Bot.EvaluateFeatureWith and Bot.ReevaluatedIsCertain state the as-written behaviour for one feature only.
- BotEval.EvaluateSegment: the feature it stores is evaluated with `C_PROB` cleared, not with the marks left by earlier features (see Bot.EvaluateFeature).
- BotEval.EvaluateCell: its features carry chances computed with `C_PROB` cleared per feature (see Bot.EvaluateFeature).
- BotEval.EvaluateAllFeatures: "evaluated from the board" means evaluated with `C_PROB` cleared per feature; the program's features share one set of marks (see Bot.EvaluateFeature).
- BotEval.Count: a newly touched feature is evaluated with `C_PROB` cleared, unlike src/bot.c:197 (see Bot.EvaluateFeature).
- BotEval.EvaluateTurn: the score uses chances computed with `C_PROB` cleared per feature, so it can differ from the program's `ans` (see Bot.EvaluateFeature).
- BotSearch.BotTurn: the first best placement is judged by scores computed with `C_PROB` cleared per feature, so the chosen move can differ from the program's (see Bot.EvaluateFeature).
- Game.TurnStart: a bot's move comes from BotSearch.BotTurn, so it inherits the cleared `C_PROB` (see Bot.EvaluateFeature).
- Points.Phase1Facts: states the city marks of the corrected line 49 of src/points.c (bit `ids[i]`), the corrected half of the first finding below. As written the line marks bit `ids[ids[i]]`; Points.CollectFieldAsWritten models that and Findings.FieldAsWrittenScoresNothing shows the difference.
- Points.Phase1Cities: the bordering cities are those of the corrected line 49, not those the line marks as written (see Points.Phase1Facts).
- Points.FieldScore: the field score is that of the corrected line 49; the as-written score is stated only for the board of the first finding (see Points.Phase1Facts).
- PointsPass.FeaturePoints: fields are scored with the corrected line 49 (see Points.Phase1Facts).
- Game.ScoringPass: the end-of-game pass scores fields with the corrected line 49 (see Points.Phase1Facts).
- Game.Settle: final field points come from the corrected line 49, not from src/points.c:49 as written (see Points.Phase1Facts).
- Bot.FeatureIds: the bot's stamp table is an unbounded map. In the program it is `int t[BOARD_SIZE][BOARD_SIZE][8]` (src/bot.c:12), but tile 5 of src/deck.c:115 has eight keys, so its fourth road gets id 8 and `t[y][x][8]` reads and writes `t[y][x + 1][0]` (and past the array at the last cell). That aliasing is not modelled.
- BotEval.Exclude: the excluded ids are a list without repeats. The program tests and sets `1 << (fid % 64)` on an `int` (src/bot.c:213, 217) and stores it in a `long long`; a shift by 31 or more is undefined in C, so ids 31 to 63 need not get distinct bits. The model treats every id as distinct.
- Meeples.CollectCounts: states which colours are counted, not how often. The callback runs on every dequeued entry, duplicates included (src/board.c:87-93), so a meeple can be counted more than once.

## Findings

| source | as written | input that shows it | evidently intended | confidence | as-written member | corrected member |
|---|---|---|---|---|---|---|
| src/points.c:49 | `CITY_VISIT(x, y, t->ids[i])` passes an id where the macro expects a position, so it marks bit `ids[ids[i]]` | the tile of deck line 6 turned twice, closed below by the same tile unturned: the final field score is 0 | mark bit `ids[i]`, so the field scores 3 for the closed city | not executed | Findings.FieldAsWrittenScoresNothing | Findings.FieldScoresClosedCity |
| src/bot.c:69 | the global `C_PROB` marks are never cleared between evaluations | a road or city evaluated a second time on the same board, with the marks its first evaluation left: its completion chance comes out as 1 whatever its open cells | clear the marks before each feature evaluation | not executed | Bot.ReevaluatedIsCertain | Bot.EvaluateFeatureChance |
