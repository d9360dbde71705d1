/**
 * The bot's move (bot.c): numbering every feature on the board, weighing one placement of the
 * drawn tile by what it adds to and takes from the features around it, and picking the
 * placement with the best score.
 *
 * rand() is a parameter: roll(n) stands for rand() / RAND_MAX at the n-th draw. Every function
 * that draws takes the index of its first draw and hands back the index after its last one.
 */
module BotEval {
  import opened Wrappers
  import opened Tiles
  import opened Board
  import opened Walk
  import opened Bot
  import opened Turns

  // ---- evaluate_all_features ----------------------------------------------------------------

  /** The features of the whole board by number, the stamps feature_ids, and last_feature_id. */
  datatype Analysis = Analysis(features: map<nat, Feature>, ids: FeatureIds, last: nat)

  /** A segment a feature is evaluated from: on an occupied cell and not a field. */
  predicate NonField(b: Board, x: int, y: int, pos: Pos)
  {
    (x, y) in b.grid && b.grid[(x, y)].types[pos] != Field
  }

  /** The feature evaluate_feature builds from a segment (the stamps it is given play no part in it). */
  function FeatureAt(b: Board, x: int, y: int, pos: Pos, remaining: nat, fid: nat): Feature
    requires (x, y) in b.grid
  {
    EvaluateFeature(b, x, y, pos, remaining, map[], fid).feat
  }

  /** The features are numbered 1 .. last, and every stamp names one of them. */
  ghost predicate Numbered(an: Analysis)
  {
    && (forall k :: k in an.features <==> 1 <= k <= an.last)
    && (forall k | k in an.features :: an.features[k].id == k)
    && (forall tr | tr in an.ids :: 1 <= an.ids[tr] <= an.last)
  }

  /** Every feature is the one evaluate_feature builds from some non-field segment under its number. */
  ghost predicate Sourced(b: Board, remaining: nat, an: Analysis)
  {
    forall k | k in an.features ::
      exists x, y, pos: Pos :: NonField(b, x, y, pos) && an.features[k] == FeatureAt(b, x, y, pos, remaining, k)
  }

  /** A non-field segment is covered once its mark carries a feature number. */
  ghost predicate Covered(b: Board, an: Analysis, x: int, y: int, pos: Pos)
  {
    NonField(b, x, y, pos) ==> (x, y, b.grid[(x, y)].ids[pos]) in an.ids
  }

  /** Adding the feature of an unstamped segment keeps the numbering, covers the segment, and removes no stamp. */
  lemma AddFeatureFacts(b: Board, remaining: nat, an: Analysis, x: int, y: int, pos: Pos, e: Stamped)
    requires NonField(b, x, y, pos) && Numbered(an) && Sourced(b, remaining, an)
    requires e == EvaluateFeature(b, x, y, pos, remaining, an.ids, an.last + 1)
    ensures var r := Analysis(an.features[an.last + 1 := e.feat], e.ids, an.last + 1);
      && Numbered(r) && Sourced(b, remaining, r)
      && an.ids.Keys <= r.ids.Keys
      && (x, y, b.grid[(x, y)].ids[pos]) in r.ids
  {
    var k := an.last + 1;
    EvaluateFeatureStamps(b, x, y, pos, remaining, an.ids, k);
    FeatureIgnoresIds(b, x, y, pos, remaining, an.ids, map[], k);
    NumberedAdd(an, e, k);
    SourcedAdd(b, remaining, an, e.feat, x, y, pos);
  }

  /** A new feature under the next number, with stamps that are either its own or kept, keeps the numbering. */
  lemma NumberedAdd(an: Analysis, e: Stamped, k: nat)
    requires Numbered(an) && k == an.last + 1 && e.feat.id == k
    requires forall tr | tr in e.ids :: e.ids[tr] == k || (tr in an.ids && e.ids[tr] == an.ids[tr])
    ensures Numbered(Analysis(an.features[k := e.feat], e.ids, k))
  {
  }

  lemma SourcedAdd(b: Board, remaining: nat, an: Analysis, f: Feature, x: int, y: int, pos: Pos)
    requires NonField(b, x, y, pos) && Sourced(b, remaining, an)
    requires f == FeatureAt(b, x, y, pos, remaining, an.last + 1)
    ensures Sourced(b, remaining, Analysis(an.features[an.last + 1 := f], an.ids, an.last + 1))
  {
    var k := an.last + 1;
    var fs := an.features[k := f];
    forall j | j in fs
      ensures exists x', y', pos': Pos :: NonField(b, x', y', pos') && fs[j] == FeatureAt(b, x', y', pos', remaining, j)
    {
      if j == k {
        assert NonField(b, x, y, pos) && fs[j] == FeatureAt(b, x, y, pos, remaining, j);
      } else {
        assert fs[j] == an.features[j];
      }
    }
  }

  /** Coverage survives any step that removes no stamp. */
  lemma CoveredKept(b: Board, an: Analysis, an': Analysis)
    requires an.ids.Keys <= an'.ids.Keys
    ensures forall x, y, pos: Pos :: Covered(b, an, x, y, pos) ==> Covered(b, an', x, y, pos)
  {
  }

  /**
   * evaluate_all_features: rows 1 .. BOARD_SIZE-1, columns 0 .. BOARD_SIZE-1, segments 0 .. 12;
   * every non-field segment whose mark has no number yet starts the next feature.
   */
  method EvaluateAllFeatures(b: Board, remaining: nat) returns (an: Analysis)
    ensures Numbered(an) && Sourced(b, remaining, an)
    ensures forall x, y, pos: Pos | 0 <= x < BOARD_SIZE && 1 <= y < BOARD_SIZE :: Covered(b, an, x, y, pos)
  {
    an := Analysis(map[], map[], 0);
    var y := 1;
    while y < BOARD_SIZE
      invariant 1 <= y <= BOARD_SIZE
      invariant Numbered(an) && Sourced(b, remaining, an)
      invariant forall x', y', pos: Pos | 0 <= x' < BOARD_SIZE && 1 <= y' < y :: Covered(b, an, x', y', pos)
    {
      var x := 0;
      while x < BOARD_SIZE
        invariant 0 <= x <= BOARD_SIZE
        invariant Numbered(an) && Sourced(b, remaining, an)
        invariant forall x', y', pos: Pos | 0 <= x' < BOARD_SIZE && 1 <= y' < y :: Covered(b, an, x', y', pos)
        invariant forall x', pos: Pos | 0 <= x' < x :: Covered(b, an, x', y, pos)
      {
        if (x, y) in b.grid {
          var an' := EvaluateCell(b, remaining, an, x, y);
          CoveredKept(b, an, an');
          an := an';
        }
        x := x + 1;
      }
      y := y + 1;
    }
  }

  /** The innermost loop of evaluate_all_features: the thirteen segments of one placed tile. */
  method EvaluateCell(b: Board, remaining: nat, an0: Analysis, x: int, y: int) returns (an: Analysis)
    requires (x, y) in b.grid && Numbered(an0) && Sourced(b, remaining, an0)
    ensures Numbered(an) && Sourced(b, remaining, an) && an0.ids.Keys <= an.ids.Keys
    ensures forall p: Pos :: Covered(b, an, x, y, p)
  {
    an := an0;
    var pos := 0;
    while pos < 13
      invariant 0 <= pos <= 13
      invariant Numbered(an) && Sourced(b, remaining, an) && an0.ids.Keys <= an.ids.Keys
      invariant forall p: Pos | p < pos :: Covered(b, an, x, y, p)
    {
      var an' := EvaluateSegment(b, remaining, an, x, y, pos);
      CoveredKept(b, an, an');
      an := an';
      pos := pos + 1;
    }
  }

  /** One segment of evaluate_all_features: an unstamped non-field segment starts the next feature. */
  method EvaluateSegment(b: Board, remaining: nat, an0: Analysis, x: int, y: int, pos: Pos) returns (an: Analysis)
    requires (x, y) in b.grid && Numbered(an0) && Sourced(b, remaining, an0)
    ensures Numbered(an) && Sourced(b, remaining, an) && an0.ids.Keys <= an.ids.Keys
    ensures Covered(b, an, x, y, pos)
    ensures an.last == if NonField(b, x, y, pos) && (x, y, b.grid[(x, y)].ids[pos]) !in an0.ids then an0.last + 1 else an0.last
  {
    var t := b.grid[(x, y)];
    if t.types[pos] != Field && (x, y, t.ids[pos]) !in an0.ids {
      var k := an0.last + 1;
      var e := EvaluateFeature(b, x, y, pos, remaining, an0.ids, k);
      AddFeatureFacts(b, remaining, an0, x, y, pos, e);
      an := Analysis(an0.features[k := e.feat], e.ids, k);
    } else {
      an := an0;
    }
  }

  // ---- evaluate_turn_helper -----------------------------------------------------------------

  /**
   * The state of one evaluate_turn: the stamps of the features the move counted (included_ids),
   * the pre-existing features whose value it took off (excluded_ids, in order), the score ans,
   * the best meeple and its value, the feature counter, the next draw, and the sum of what the
   * counted features added.
   */
  datatype TurnState = TurnState(included: FeatureIds, excluded: seq<nat>, ans: real, best: Meeple,
                                 bestValue: real, last: nat, draws: nat, added: real)

  /** RANDOMIZE: the value plus a draw of rand() / RAND_MAX, minus one half. */
  function Randomize(v: real, roll: nat -> real, n: nat): real
  {
    v + roll(n) - 0.5
  }

  /** The feature number of a segment of the board before the preview, or 0 when it has none. */
  function StampOf(b: Board, an: Analysis, x: int, y: int, pos: Pos): nat
  {
    if !NonField(b, x, y, pos) then 0
    else
      var tid := b.grid[(x, y)].ids[pos];
      if tid != 0 && (x, y, tid) in an.ids then an.ids[(x, y, tid)] else 0
  }

  /** The segments evaluate_turn_helper looks at: occupied, not a field, and with a non-zero id. */
  predicate Counted(b: Board, x: int, y: int, pos: Pos)
  {
    NonField(b, x, y, pos) && b.grid[(x, y)].ids[pos] != 0
  }

  /** evaluate_feature as a value: from a segment, with the stamps so far, under a number. */
  type Evaluator = (int, int, Pos, FeatureIds, nat) -> Stamped

  /** evaluate_feature on board b for the given number of remaining tiles (an empty cell is never evaluated). */
  function Evaluate(b: Board, remaining: nat): Evaluator
  {
    (x: int, y: int, pos: Pos, ids: FeatureIds, fid: nat) =>
      if (x, y) in b.grid then EvaluateFeature(b, x, y, pos, remaining, ids, fid)
      else Stamped(Feature(NoType, fid, 0, 1.0, ZERO_COUNTS), ids)
  }

  /**
   * What evaluate_turn_helper relies on from evaluate_feature: the start mark, and for a
   * walked feature every mark of the walk, carries a stamp afterwards, and no stamp is lost.
   */
  ghost predicate StampsWalk(b: Board, ev: Evaluator)
  {
    forall x: int, y: int, pos: Pos, ids: FeatureIds, fid: nat | (x, y) in b.grid ::
      && StartTriple(b, x, y, pos) in ev(x, y, pos, ids, fid).ids
      && ids.Keys <= ev(x, y, pos, ids, fid).ids.Keys
      && (b.grid[(x, y)].types[pos] != Monastery ==> Bfs(b, x, y, pos).visited <= ev(x, y, pos, ids, fid).ids.Keys)
  }

  lemma EvaluateStampsWalk(b: Board, remaining: nat)
    ensures StampsWalk(b, Evaluate(b, remaining))
  {
    var ev := Evaluate(b, remaining);
    forall x: int, y: int, pos: Pos, ids: FeatureIds, fid: nat | (x, y) in b.grid
      ensures && StartTriple(b, x, y, pos) in ev(x, y, pos, ids, fid).ids
              && ids.Keys <= ev(x, y, pos, ids, fid).ids.Keys
              && (b.grid[(x, y)].types[pos] != Monastery ==> Bfs(b, x, y, pos).visited <= ev(x, y, pos, ids, fid).ids.Keys)
    {
      EvaluateFeatureStamps(b, x, y, pos, remaining, ids, fid);
    }
  }

  /**
   * The new feature e, evaluated under the next number, goes into the score with a draw; one
   * nobody holds is also weighed, with a second draw, for a meeple on segment pos if own is set.
   */
  function Weigh(player: Player, roll: nat -> real, pos: Pos, own: bool, s: TurnState, e: Stamped): TurnState
  {
    var value := RelativeValue(e.feat, player.color);
    var gain := Randomize(value, roll, s.draws);
    var s1 := s.(included := e.ids, last := s.last + 1, ans := s.ans + gain, added := s.added + gain, draws := s.draws + 1);
    if value == 0.0 && own && player.meeple > 0 then
      var v := Randomize(FeatureValue(e.feat), roll, s1.draws);
      if v > s.bestValue then s1.(best := Meeple(player.color, pos), bestValue := v, draws := s1.draws + 1)
      else s1.(draws := s1.draws + 1)
    else s1
  }

  /** Weighing a feature keeps the score decomposition; a new best meeple needs a feature nobody holds. */
  lemma WeighFacts(player: Player, roll: nat -> real, pos: Pos, own: bool, s: TurnState, e: Stamped)
    ensures var r := Weigh(player, roll, pos, own, s, e);
      && r.included == e.ids && r.last == s.last + 1 && s.draws < r.draws
      && r.excluded == s.excluded && r.ans - r.added == s.ans - s.added
      && r.bestValue >= s.bestValue
      && (r.best != s.best ==>
            (own && player.meeple > 0 && r.best == Meeple(player.color, pos) && r.bestValue > s.bestValue
             && RelativeValue(e.feat, player.color) == 0.0))
  {
  }

  /** The values of the listed features for the player, added up. */
  function SumRelative(an: Analysis, player: Player, fs: seq<nat>): real
    requires forall f | f in fs :: f in an.features
    decreases |fs|
  {
    if |fs| == 0 then 0.0
    else
      var n := |fs| - 1;
      SumRelative(an, player, fs[..n]) + RelativeValue(an.features[fs[n]], player.color)
  }

  /** No feature number appears twice. */
  predicate NoRepeats(fs: seq<nat>)
  {
    forall i, j | 0 <= i < j < |fs| :: fs[i] != fs[j]
  }

  /**
   * What the state of evaluate_turn keeps: every feature taken off is numbered and taken off
   * once, the score is what the counted features added minus what was taken off, and a chosen
   * meeple is the player's, on a segment of the placed tile, with supply left.
   */
  ghost predicate TurnInvariant(an: Analysis, player: Player, s: TurnState)
  {
    && (forall f | f in s.excluded :: f in an.features)
    && NoRepeats(s.excluded)
    && s.ans == s.added - SumRelative(an, player, s.excluded)
    && 0.0 <= s.bestValue
    && (s.best == NO_MEEPLE || (player.meeple > 0 && s.best.color == player.color && s.best.pos in {1, 4, 7, 10, 12}))
  }

  /**
   * The first half of evaluate_turn_helper: a feature the move has not counted yet is evaluated
   * under the next number, goes into the score, and is weighed for a meeple.
   */
  function Count(b: Board, ev: Evaluator, player: Player, roll: nat -> real, x: int, y: int, pos: Pos, own: bool, s: TurnState): (r: TurnState)
    // a field, an empty cell, a segment without id, or a feature already counted changes nothing
    ensures !Counted(b, x, y, pos) || (x, y, b.grid[(x, y)].ids[pos]) in s.included ==> r == s
    // afterwards the segment, and every segment of its walk, counts as included
    ensures StampsWalk(b, ev) && Counted(b, x, y, pos) ==> (x, y, b.grid[(x, y)].ids[pos]) in r.included
    ensures (StampsWalk(b, ev) && Counted(b, x, y, pos) && b.grid[(x, y)].types[pos] != Monastery
             && (x, y, b.grid[(x, y)].ids[pos]) !in s.included) ==> Bfs(b, x, y, pos).visited <= r.included.Keys
    ensures StampsWalk(b, ev) ==> s.included.Keys <= r.included.Keys
    ensures s.last <= r.last <= s.last + 1 && s.draws <= r.draws
    ensures r.excluded == s.excluded && r.ans - r.added == s.ans - s.added && r.bestValue >= s.bestValue
    // a new best meeple is the player's, on this segment, of a feature nobody holds, with supply left
    ensures r.best != s.best ==>
      && own && player.meeple > 0 && r.best == Meeple(player.color, pos) && r.bestValue > s.bestValue
      && RelativeValue(ev(x, y, pos, s.included, s.last + 1).feat, player.color) == 0.0
  {
    if !Counted(b, x, y, pos) || (x, y, b.grid[(x, y)].ids[pos]) in s.included then s
    else
      WeighFacts(player, roll, pos, own, s, ev(x, y, pos, s.included, s.last + 1));
      Weigh(player, roll, pos, own, s, ev(x, y, pos, s.included, s.last + 1))
  }

  /**
   * The second half of evaluate_turn_helper: the feature number the segment had before the
   * move, if any, is taken off the score with its old value, once per move.
   */
  function Exclude(b: Board, an: Analysis, player: Player, x: int, y: int, pos: Pos, s: TurnState): (r: TurnState)
    requires Numbered(an)
    ensures StampOf(b, an, x, y, pos) != 0 && StampOf(b, an, x, y, pos) !in s.excluded ==>
      r.excluded == s.excluded + [StampOf(b, an, x, y, pos)]
    ensures StampOf(b, an, x, y, pos) == 0 || StampOf(b, an, x, y, pos) in s.excluded ==> r == s
    ensures r.(ans := s.ans, excluded := s.excluded) == s
    ensures TurnInvariant(an, player, s) ==> TurnInvariant(an, player, r)
  {
    var fid := StampOf(b, an, x, y, pos);
    if fid != 0 && fid !in s.excluded then
      ExcludeFacts(an, player, s, fid);
      s.(ans := s.ans - RelativeValue(an.features[fid], player.color), excluded := s.excluded + [fid])
    else s
  }

  /** Taking a not yet excluded feature off keeps the score decomposition and the list free of repeats. */
  lemma ExcludeFacts(an: Analysis, player: Player, s: TurnState, fid: nat)
    requires fid in an.features && fid !in s.excluded
    ensures var r := s.(ans := s.ans - RelativeValue(an.features[fid], player.color), excluded := s.excluded + [fid]);
      TurnInvariant(an, player, s) ==> TurnInvariant(an, player, r)
  {
    var r := s.(ans := s.ans - RelativeValue(an.features[fid], player.color), excluded := s.excluded + [fid]);
    if TurnInvariant(an, player, s) {
      assert r.excluded[..|s.excluded|] == s.excluded;
    }
  }

  /** evaluate_turn_helper: the segment's feature is counted if new, then its old value taken off once. */
  function TurnHelper(b: Board, ev: Evaluator, an: Analysis, player: Player, roll: nat -> real,
                      x: int, y: int, pos: Pos, own: bool, s: TurnState): (r: TurnState)
    requires Numbered(an)
    // a field, an empty cell or a segment without id is skipped outright
    ensures !Counted(b, x, y, pos) ==> r == s
  {
    var s1 := Count(b, ev, player, roll, x, y, pos, own, s);
    Exclude(b, an, player, x, y, pos, s1)
  }

  /**
   * One helper call keeps the state's invariant, moves the draws forward, and adds the
   * segment's old number, if it has one, to the features taken off.
   */
  lemma HelperFacts(b: Board, ev: Evaluator, an: Analysis, player: Player, roll: nat -> real,
                    x: int, y: int, pos: Pos, own: bool, s: TurnState)
    requires Numbered(an)
    ensures var r := TurnHelper(b, ev, an, player, roll, x, y, pos, own, s);
      && s.draws <= r.draws
      && (forall g :: g in r.excluded <==> g in s.excluded || (g == StampOf(b, an, x, y, pos) && g != 0))
      && (TurnInvariant(an, player, s) && (own ==> pos in {1, 4, 7, 10, 12}) ==> TurnInvariant(an, player, r))
  {
  }

  // ---- evaluate_turn -----------------------------------------------------------------------

  /** One evaluate_turn_helper call: the offset from the placed cell, the segment, and whether it is the placed tile's own. */
  datatype Call = Call(dx: int, dy: int, pos: Pos, own: bool)

  /**
   * The calls of evaluate_turn, in order: the placed tile's four side middles and centre
   * (meeple candidates), the facing middles of the four neighbours and of the cells two
   * away, the facing segments of the four diagonal neighbours, and the centres of the eight
   * surrounding cells.
   */
  const CALLS: seq<Call> := [
    Call(0, 0, 1, true), Call(0, 0, 4, true), Call(0, 0, 7, true), Call(0, 0, 10, true), Call(0, 0, 12, true),
    Call(0, -1, 7, false), Call(1, 0, 10, false), Call(0, 1, 1, false), Call(-1, 0, 4, false),
    Call(0, -2, 7, false), Call(2, 0, 10, false), Call(0, 2, 1, false), Call(-2, 0, 4, false),
    Call(-1, -1, 4, false), Call(-1, -1, 7, false), Call(1, -1, 7, false), Call(1, -1, 10, false),
    Call(1, 1, 10, false), Call(1, 1, 1, false), Call(-1, 1, 1, false), Call(-1, 1, 4, false),
    Call(-1, -1, 12, false), Call(0, -1, 12, false), Call(1, -1, 12, false), Call(1, 0, 12, false),
    Call(1, 1, 12, false), Call(0, 1, 12, false), Call(-1, 1, 12, false), Call(-1, 0, 12, false)
  ]

  /** Only calls on the placed tile's side middles and centre may propose a meeple. */
  predicate OwnCallsOnly(calls: seq<Call>)
  {
    forall i | 0 <= i < |calls| && calls[i].own :: calls[i].dx == 0 && calls[i].dy == 0 && calls[i].pos in {1, 4, 7, 10, 12}
  }

  /** One helper call, as a value: the segment at (x, y, pos), whether it is the placed tile's own, and the state. */
  type Step = (int, int, Pos, bool, TurnState) -> TurnState

  /** evaluate_turn_helper on board b with the given evaluator, analysis, player and draws. */
  function HelperStep(b: Board, ev: Evaluator, an: Analysis, player: Player, roll: nat -> real): Step
    requires Numbered(an)
  {
    (x: int, y: int, pos: Pos, own: bool, s: TurnState) => TurnHelper(b, ev, an, player, roll, x, y, pos, own, s)
  }

  /** Each helper call leaves the draw index where it was or moves it forward. */
  ghost predicate Advances(step: Step)
  {
    forall x: int, y: int, pos: Pos, own: bool, s: TurnState :: s.draws <= step(x, y, pos, own, s).draws
  }

  /** Each helper call takes off exactly the number the board had on its segment, when there is one. */
  ghost predicate Excludes(b: Board, an: Analysis, step: Step)
  {
    forall x: int, y: int, pos: Pos, own: bool, s: TurnState, g ::
      g in step(x, y, pos, own, s).excluded <==> g in s.excluded || (g == StampOf(b, an, x, y, pos) && g != 0)
  }

  /** Each helper call keeps the invariant, as long as only a side middle or the centre may take a meeple. */
  ghost predicate Keeps(step: Step, inv: TurnState -> bool)
  {
    forall x: int, y: int, pos: Pos, own: bool, s: TurnState ::
      inv(s) && (own ==> pos in {1, 4, 7, 10, 12}) ==> inv(step(x, y, pos, own, s))
  }

  /** TurnInvariant, as a value. */
  ghost function Invariant(an: Analysis, player: Player): TurnState -> bool
  {
    (s: TurnState) => TurnInvariant(an, player, s)
  }

  lemma HelperStepFacts(b: Board, ev: Evaluator, an: Analysis, player: Player, roll: nat -> real)
    requires Numbered(an)
    ensures Advances(HelperStep(b, ev, an, player, roll))
    ensures Excludes(b, an, HelperStep(b, ev, an, player, roll))
    ensures Keeps(HelperStep(b, ev, an, player, roll), Invariant(an, player))
  {
    var step := HelperStep(b, ev, an, player, roll);
    forall x: int, y: int, pos: Pos, own: bool, s: TurnState
      ensures && s.draws <= step(x, y, pos, own, s).draws
              && (forall g :: g in step(x, y, pos, own, s).excluded <==> g in s.excluded || (g == StampOf(b, an, x, y, pos) && g != 0))
              && (TurnInvariant(an, player, s) && (own ==> pos in {1, 4, 7, 10, 12}) ==> TurnInvariant(an, player, step(x, y, pos, own, s)))
    {
      HelperFacts(b, ev, an, player, roll, x, y, pos, own, s);
    }
  }

  /** The calls from the i-th on, one after the other, around the cell (x, y). */
  function RunCalls(step: Step, x: int, y: int, calls: seq<Call>, i: nat, s: TurnState): TurnState
    requires i <= |calls|
    decreases |calls| - i
  {
    if i == |calls| then s
    else
      var c := calls[i];
      RunCalls(step, x, y, calls, i + 1, step(x + c.dx, y + c.dy, c.pos, c.own, s))
  }

  /** The numbers the board had, before the move, on the segments the calls from the i-th on look at. */
  function CallStamps(b: Board, an: Analysis, x: int, y: int, calls: seq<Call>, i: nat): set<nat>
    requires i <= |calls|
    decreases |calls| - i
  {
    if i == |calls| then {}
    else
      var c := calls[i];
      var f := StampOf(b, an, x + c.dx, y + c.dy, c.pos);
      (if f != 0 then {f} else {}) + CallStamps(b, an, x, y, calls, i + 1)
  }

  /** Over a run of calls the draw index only moves forward. */
  lemma {:induction false} RunCallsDraws(step: Step, x: int, y: int, calls: seq<Call>, i: nat, s: TurnState)
    requires Advances(step) && i <= |calls|
    ensures s.draws <= RunCalls(step, x, y, calls, i, s).draws
    decreases |calls| - i
  {
    if i < |calls| {
      var c := calls[i];
      RunCallsDraws(step, x, y, calls, i + 1, step(x + c.dx, y + c.dy, c.pos, c.own, s));
    }
  }

  /** Over a run of calls that only offer the placed tile's side middles and centre a meeple, the invariant holds. */
  lemma {:induction false} RunCallsKeeps(step: Step, inv: TurnState -> bool, x: int, y: int, calls: seq<Call>, i: nat, s: TurnState)
    requires Keeps(step, inv) && inv(s) && OwnCallsOnly(calls) && i <= |calls|
    ensures inv(RunCalls(step, x, y, calls, i, s))
    decreases |calls| - i
  {
    if i < |calls| {
      var c := calls[i];
      RunCallsKeeps(step, inv, x, y, calls, i + 1, step(x + c.dx, y + c.dy, c.pos, c.own, s));
    }
  }

  /** Over a run of calls the features taken off grow by exactly the pre-existing features the calls touch. */
  lemma {:induction false} RunCallsStamps(b: Board, an: Analysis, step: Step, x: int, y: int, calls: seq<Call>, i: nat, s: TurnState)
    requires Excludes(b, an, step) && i <= |calls|
    ensures forall f :: f in RunCalls(step, x, y, calls, i, s).excluded <==> f in s.excluded || f in CallStamps(b, an, x, y, calls, i)
    decreases |calls| - i
  {
    if i < |calls| {
      var c := calls[i];
      RunCallsStamps(b, an, step, x, y, calls, i + 1, step(x + c.dx, y + c.dy, c.pos, c.own, s));
    }
  }

  /** What evaluate_turn reports: the score, the meeple to place, the board after the preview is undone, the features taken off, the next draw. */
  datatype TurnValue = TurnValue(value: real, meeple: Meeple, board: Board, excluded: seq<nat>, draws: nat)

  /** The zeroed state evaluate_turn starts from, with the feature counter and the draws where they stand. */
  function StartState(an: Analysis, draws: nat): TurnState
  {
    TurnState(map[], [], 0.0, NO_MEEPLE, 0.0, an.last, draws, 0.0)
  }

  /**
   * evaluate_turn: previews the tile at the turn's cell, runs the helper calls around it from
   * a zeroed state, clears the preview, and scores the move as the sum of the changes plus the
   * value of the best meeple.
   */
  function EvaluateTurn(b: Board, an: Analysis, player: Player, turn: Turn, remaining: nat, roll: nat -> real, draws: nat): (r: TurnValue)
    requires InBounds(turn.x, turn.y) && Numbered(an)
    ensures r.meeple == NO_MEEPLE || (player.meeple > 0 && r.meeple.color == player.color && r.meeple.pos in {1, 4, 7, 10, 12})
    ensures forall f | f in r.excluded :: f in an.features
    ensures NoRepeats(r.excluded)
    ensures forall f :: f in r.excluded <==> f in CallStamps(TileTmp(b, Some(turn.tile), turn.x, turn.y), an, turn.x, turn.y, CALLS, 0)
    ensures draws <= r.draws
  {
    var tmp := TileTmp(b, Some(turn.tile), turn.x, turn.y);
    var step := HelperStep(tmp, Evaluate(tmp, remaining), an, player, roll);
    HelperStepFacts(tmp, Evaluate(tmp, remaining), an, player, roll);
    assert Invariant(an, player)(StartState(an, draws));
    RunCallsKeeps(step, Invariant(an, player), turn.x, turn.y, CALLS, 0, StartState(an, draws));
    RunCallsDraws(step, turn.x, turn.y, CALLS, 0, StartState(an, draws));
    RunCallsStamps(tmp, an, step, turn.x, turn.y, CALLS, 0, StartState(an, draws));
    var s := RunCalls(step, turn.x, turn.y, CALLS, 0, StartState(an, draws));
    TurnValue(s.ans + s.bestValue, s.best, TileTmp(tmp, None, turn.x, turn.y), s.excluded, s.draws)
  }

  /** On the empty cell bot_turn previews, evaluate_turn hands the board back as it found it. */
  lemma EvaluateTurnRestores(b: Board, an: Analysis, player: Player, turn: Turn, remaining: nat, roll: nat -> real, draws: nat)
    requires InBounds(turn.x, turn.y) && Numbered(an) && (turn.x, turn.y) !in b.grid
    ensures EvaluateTurn(b, an, player, turn, remaining, roll, draws).board == b
  {
    TmpUndo(b, turn.tile, turn.x, turn.y);
  }
}
