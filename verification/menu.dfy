/**
 * The menu (src/menu.c): four pages of buttons driven by key presses, and the player and
 * bot counts of the options page that game_init receives. Rendering, the background view and
 * the game itself are not modelled; what the menu asks of the game is returned as effects.
 */
module Menu {
  import opened Wrappers
  import opened Tiles

  // ---- the options page's counts --------------------------------------------------------------

  /** GameConfig without its callback: how many humans and how many bots will play. */
  datatype Config = Config(players: int, bots: int)

  /** What the options page keeps: no negative count, and two to MEEPLE_COLOR_COUNT seats. */
  predicate Valid(c: Config)
  {
    0 <= c.players && 0 <= c.bots && 2 <= c.players + c.bots <= MEEPLE_COLOR_COUNT
  }

  /** menu_init's configuration: two humans, no bot. */
  const INIT_CONFIG := Config(2, 0)

  /**
   * page_options_player_add: one more human unless the cap is reached, and the bots cut
   * back only as far as the cap requires.
   */
  function PlayerAdd(c: Config): (r: Config)
    ensures c.players < MEEPLE_COLOR_COUNT ==> r.players == c.players + 1
    ensures c.players >= MEEPLE_COLOR_COUNT ==> r.players == c.players
    ensures r.players + r.bots <= MEEPLE_COLOR_COUNT && r.bots <= c.bots
    ensures r.bots < c.bots ==> r.players + r.bots == MEEPLE_COLOR_COUNT
    ensures Valid(c) ==> Valid(r)
  {
    var players := if c.players < MEEPLE_COLOR_COUNT then c.players + 1 else c.players;
    var bots := if players + c.bots > MEEPLE_COLOR_COUNT then MEEPLE_COLOR_COUNT - players else c.bots;
    Config(players, bots)
  }

  /**
   * page_options_player_sub: one human fewer unless there is none, and the bots topped up
   * only as far as the two-seat minimum requires.
   */
  function PlayerSub(c: Config): (r: Config)
    ensures c.players > 0 ==> r.players == c.players - 1
    ensures c.players <= 0 ==> r.players == c.players
    ensures r.players + r.bots >= 2 && r.bots >= c.bots
    ensures r.bots > c.bots ==> r.players + r.bots == 2
    ensures Valid(c) ==> Valid(r)
  {
    var players := if c.players > 0 then c.players - 1 else c.players;
    var bots := if players + c.bots < 2 then 2 - players else c.bots;
    Config(players, bots)
  }

  /** page_options_bot_add: PlayerAdd with the roles of humans and bots exchanged. */
  function BotAdd(c: Config): (r: Config)
    ensures c.bots < MEEPLE_COLOR_COUNT ==> r.bots == c.bots + 1
    ensures c.bots >= MEEPLE_COLOR_COUNT ==> r.bots == c.bots
    ensures r.players + r.bots <= MEEPLE_COLOR_COUNT && r.players <= c.players
    ensures r.players < c.players ==> r.players + r.bots == MEEPLE_COLOR_COUNT
    ensures Valid(c) ==> Valid(r)
  {
    var bots := if c.bots < MEEPLE_COLOR_COUNT then c.bots + 1 else c.bots;
    var players := if c.players + bots > MEEPLE_COLOR_COUNT then MEEPLE_COLOR_COUNT - bots else c.players;
    Config(players, bots)
  }

  /** page_options_bot_sub: PlayerSub with the roles of humans and bots exchanged. */
  function BotSub(c: Config): (r: Config)
    ensures c.bots > 0 ==> r.bots == c.bots - 1
    ensures c.bots <= 0 ==> r.bots == c.bots
    ensures r.players + r.bots >= 2 && r.players >= c.players
    ensures r.players > c.players ==> r.players + r.bots == 2
    ensures Valid(c) ==> Valid(r)
  {
    var bots := if c.bots > 0 then c.bots - 1 else c.bots;
    var players := if c.players + bots < 2 then 2 - bots else c.players;
    Config(players, bots)
  }

  /** Away from both bounds, taking a human away undoes adding one, and the other way round. */
  lemma PlayerAddSub(c: Config)
    requires Valid(c)
    ensures c.players + c.bots < MEEPLE_COLOR_COUNT ==> PlayerSub(PlayerAdd(c)) == c
    ensures c.players > 0 && c.players + c.bots > 2 ==> PlayerAdd(PlayerSub(c)) == c
  {
  }

  /** The same for bots. */
  lemma BotAddSub(c: Config)
    requires Valid(c)
    ensures c.players + c.bots < MEEPLE_COLOR_COUNT ==> BotSub(BotAdd(c)) == c
    ensures c.bots > 0 && c.players + c.bots > 2 ==> BotAdd(BotSub(c)) == c
  {
  }

  /** The four arrow actions of the options page. */
  datatype Change = AddPlayer | SubPlayer | AddBot | SubBot

  function ApplyChange(c: Config, o: Change): Config
  {
    match o
    case AddPlayer => PlayerAdd(c)
    case SubPlayer => PlayerSub(c)
    case AddBot => BotAdd(c)
    case SubBot => BotSub(c)
  }

  /** The configuration a series of arrow actions leaves. */
  function ApplyChanges(c: Config, os: seq<Change>): (r: Config)
    ensures Valid(c) ==> Valid(r)
    decreases |os|
  {
    if |os| == 0 then c else ApplyChanges(ApplyChange(c, os[0]), os[1..])
  }

  lemma {:induction false} ApplyChangesJoin(c: Config, a: seq<Change>, b: seq<Change>)
    ensures ApplyChanges(c, a + b) == ApplyChanges(ApplyChanges(c, a), b)
    decreases |a|
  {
    if |a| > 0 {
      assert (a + b)[1..] == a[1..] + b;
      ApplyChangesJoin(ApplyChange(c, a[0]), a[1..], b);
    } else {
      assert a + b == b;
    }
  }

  function Repeat(o: Change, n: nat): (r: seq<Change>)
    ensures |r| == n && forall i | 0 <= i < n :: r[i] == o
  {
    seq(n, _ => o)
  }

  /** Adding humans one at a time moves seats from bots to humans once the table is full. */
  lemma {:induction false} AddPlayersFull(k: nat, n: nat)
    requires k + n <= MEEPLE_COLOR_COUNT
    ensures ApplyChanges(Config(k, MEEPLE_COLOR_COUNT - k), Repeat(AddPlayer, n)) == Config(k + n, MEEPLE_COLOR_COUNT - k - n)
    decreases n
  {
    if n > 0 {
      assert Repeat(AddPlayer, n)[1..] == Repeat(AddPlayer, n - 1);
      AddPlayersFull(k + 1, n - 1);
    }
  }

  /** Taking bots away one at a time, while at least two seats stay taken. */
  lemma {:induction false} SubBots(c: Config, n: nat)
    requires 0 <= c.players && n <= c.bots && 2 <= c.players + c.bots - n
    ensures ApplyChanges(c, Repeat(SubBot, n)) == Config(c.players, c.bots - n)
    decreases n
  {
    if n > 0 {
      assert Repeat(SubBot, n)[1..] == Repeat(SubBot, n - 1);
      SubBots(Config(c.players, c.bots - 1), n - 1);
    }
  }

  /** Five bot additions from menu_init's configuration fill the table with bots. */
  lemma AllBots()
    ensures ApplyChanges(INIT_CONFIG, Repeat(AddBot, MEEPLE_COLOR_COUNT)) == Config(0, MEEPLE_COLOR_COUNT)
  {
    var r := Repeat(AddBot, MEEPLE_COLOR_COUNT);
    assert r[1..][1..][1..][1..][1..] == [];
    calc {
      ApplyChanges(INIT_CONFIG, r);
      ApplyChanges(Config(2, 1), r[1..]);
      ApplyChanges(Config(2, 2), r[1..][1..]);
      ApplyChanges(Config(2, 3), r[1..][1..][1..]);
      ApplyChanges(Config(1, 4), r[1..][1..][1..][1..]);
      ApplyChanges(Config(0, 5), r[1..][1..][1..][1..][1..]);
    }
  }

  /**
   * Every configuration the options page allows can be reached from menu_init's with the
   * arrows: fill the table with bots, swap in the humans, then drop the surplus bots.
   */
  lemma Reachable(c: Config)
    requires Valid(c)
    ensures ApplyChanges(INIT_CONFIG, Repeat(AddBot, MEEPLE_COLOR_COUNT) + Repeat(AddPlayer, c.players)
      + Repeat(SubBot, MEEPLE_COLOR_COUNT - c.players - c.bots)) == c
  {
    var a, b, d := Repeat(AddBot, MEEPLE_COLOR_COUNT), Repeat(AddPlayer, c.players), Repeat(SubBot, MEEPLE_COLOR_COUNT - c.players - c.bots);
    ApplyChangesJoin(INIT_CONFIG, a + b, d);
    ApplyChangesJoin(INIT_CONFIG, a, b);
    AllBots();
    AddPlayersFull(0, c.players);
    SubBots(Config(c.players, MEEPLE_COLOR_COUNT - c.players), MEEPLE_COLOR_COUNT - c.players - c.bots);
  }

  // ---- pages and buttons ------------------------------------------------------------------------

  /** The keys the menu reacts to; any other key is Other. */
  datatype Key = Escape | Up | Down | Tab | Enter | Left | Right | Other

  datatype PageId = StartPage | OptionsPage | GamePage | ResultsPage

  /** Every button action the pages name. */
  datatype Action =
    | StartStart | StartQuit
    | OptionsEsc | Arrow(o: Change) | OptionsStart
    | PauseEsc | PauseResume | PauseQuit
    | ResultsClose

  /** A button's three actions, each of which may be absent (NULL). */
  datatype Button = Button(click: Option<Action>, left: Option<Action>, right: Option<Action>)

  /** The buttons of each page, as the static MenuPage tables set them up. */
  function Buttons(id: PageId): (bs: seq<Button>)
    ensures 1 <= |bs| <= 3
  {
    match id
    case StartPage => [Button(Some(StartStart), None, None), Button(Some(StartQuit), None, None)]
    case OptionsPage =>
      [ Button(None, Some(Arrow(SubPlayer)), Some(Arrow(AddPlayer))),
        Button(None, Some(Arrow(SubBot)), Some(Arrow(AddBot))),
        Button(Some(OptionsStart), None, None) ]
    case GamePage => [Button(Some(PauseResume), None, None), Button(Some(PauseQuit), None, None)]
    case ResultsPage => [Button(Some(ResultsClose), None, None)]
  }

  /** Each page's escape action. */
  function EscAction(id: PageId): Option<Action>
  {
    match id
    case StartPage => None
    case OptionsPage => Some(OptionsEsc)
    case GamePage => Some(PauseEsc)
    case ResultsPage => None
  }

  /** The mutable part of a MenuPage: the selected button (-1 for none yet) and visibility. */
  datatype PageState = PageState(active: int, hidden: bool)

  /** What the menu asks of the rest of the program. */
  datatype Effect = StartGame(cfg: Config) | Pause(paused: bool) | EndGame

  datatype Menu = Menu(exit: bool, current: PageId, start: PageState, options: PageState,
                       game: PageState, results: PageState, cfg: Config)

  function Get(m: Menu, id: PageId): PageState
  {
    match id
    case StartPage => m.start
    case OptionsPage => m.options
    case GamePage => m.game
    case ResultsPage => m.results
  }

  function Set(m: Menu, id: PageId, p: PageState): (r: Menu)
    ensures Get(r, id) == p && forall other | other != id :: Get(r, other) == Get(m, other)
    ensures r.exit == m.exit && r.current == m.current && r.cfg == m.cfg
  {
    match id
    case StartPage => m.(start := p)
    case OptionsPage => m.(options := p)
    case GamePage => m.(game := p)
    case ResultsPage => m.(results := p)
  }

  /** Every page's selection is -1 or one of its buttons, so pressing a key can look it up. */
  predicate WellFormed(m: Menu)
  {
    forall id: PageId :: -1 <= Get(m, id).active < |Buttons(id)|
  }

  /** menu_init: the start page shows, nothing is selected yet on any page, two humans. */
  function MenuInit(): (m: Menu)
    ensures WellFormed(m) && Valid(m.cfg) && !m.exit && m.current == StartPage
    ensures forall id: PageId :: Get(m, id).active == -1 && !Get(m, id).hidden
  {
    var blank := PageState(-1, false);
    Menu(false, StartPage, blank, blank, blank, blank, INIT_CONFIG)
  }

  /** page_open: the page shows with its first button selected; nothing else changes. */
  function Open(m: Menu, id: PageId): (r: Menu)
    ensures r.current == id && Get(r, id).active == 0 && Get(r, id).hidden == Get(m, id).hidden
    ensures forall other | other != id :: Get(r, other) == Get(m, other)
    ensures r.exit == m.exit && r.cfg == m.cfg
  {
    Set(m, id, Get(m, id).(active := 0)).(current := id)
  }

  /** A button action, with what it asks of the game (game_init, game_pause, game_deinit). */
  function Do(m: Menu, a: Action): (r: (Menu, seq<Effect>))
    ensures WellFormed(m) ==> WellFormed(r.0)
    ensures Valid(m.cfg) ==> Valid(r.0.cfg)
    ensures !a.Arrow? ==> r.0.cfg == m.cfg
    ensures a.Arrow? ==> r.0.current == m.current && r.1 == []
    ensures forall e | e in r.1 && e.StartGame? :: e.cfg == m.cfg
  {
    match a
    case StartStart => (Open(m, OptionsPage), [])
    case StartQuit => (m.(exit := true), [])
    case OptionsEsc => (Open(m, StartPage), [])
    case Arrow(o) => (m.(cfg := ApplyChange(m.cfg, o)), [])
    case OptionsStart =>
      var o := Open(m, GamePage);
      (Set(o, GamePage, Get(o, GamePage).(hidden := true)), [StartGame(m.cfg)])
    case PauseEsc =>
      var hidden := !m.game.hidden;
      (m.(game := m.game.(hidden := hidden)), [Pause(!hidden)])
    case PauseResume => (m.(game := m.game.(hidden := true)), [Pause(false)])
    case PauseQuit => (Open(m, StartPage), [EndGame])
    case ResultsClose => (Open(m, StartPage), [EndGame])
  }

  // ---- key presses ------------------------------------------------------------------------------

  /** The selection after a key: UP and DOWN/TAB step round the buttons, starting from the first. */
  function Select(active: int, count: int, k: Key): (r: int)
    requires 1 <= count && -1 <= active < count
    ensures 0 <= r < count || (r == active && !(k.Up? || k.Down? || k.Tab?))
    ensures (k.Up? || k.Down? || k.Tab?) && active < 0 ==> r == 0
    ensures k.Up? && active >= 0 ==> r == if active == 0 then count - 1 else active - 1
    ensures (k.Down? || k.Tab?) && active >= 0 ==> r == if active == count - 1 then 0 else active + 1
  {
    if active >= 0 then Wrap(active, count); SelectFrom(active, count, k) else SelectFrom(active, count, k)
  }

  function SelectFrom(active: int, count: int, k: Key): int
    requires 1 <= count && -1 <= active < count
  {
    match k
    case Up => if active < 0 then 0 else (active + count - 1) % count
    case Down => if active < 0 then 0 else (active + 1) % count
    case Tab => if active < 0 then 0 else (active + 1) % count
    case _ => active
  }

  /** The two modular steps of the selection wrap round at the ends. */
  lemma Wrap(active: int, count: int)
    requires 0 <= active < count
    ensures (active + count - 1) % count == if active == 0 then count - 1 else active - 1
    ensures (active + 1) % count == if active == count - 1 then 0 else active + 1
  {
    if active == 0 {
      assert (count - 1) % count == count - 1;
    } else {
      assert (active + count - 1) % count == ((active - 1) + count) % count;
    }
  }

  /** Once a button is selected, UP and DOWN undo each other. */
  lemma SelectUpDown(active: int, count: int)
    requires 0 <= active < count
    ensures Select(Select(active, count, Up), count, Down) == active
    ensures Select(Select(active, count, Down), count, Up) == active
  {
  }

  /** button_keydown: ENTER runs the click then the right action; the arrows run left or right. */
  function Press(m: Menu, b: Button, k: Key): (r: (Menu, seq<Effect>))
    ensures WellFormed(m) ==> WellFormed(r.0)
    ensures Valid(m.cfg) ==> Valid(r.0.cfg)
    ensures Valid(m.cfg) ==> forall e | e in r.1 && e.StartGame? :: Valid(e.cfg)
    ensures !(k.Enter? || k.Left? || k.Right?) ==> r == (m, [])
  {
    match k
    case Enter =>
      var (m1, e1) := Run(m, b.click);
      var (m2, e2) := Run(m1, b.right);
      (m2, e1 + e2)
    case Left => Run(m, b.left)
    case Right => Run(m, b.right)
    case _ => (m, [])
  }

  /** The ACTION macro: run the action if there is one. */
  function Run(m: Menu, a: Option<Action>): (r: (Menu, seq<Effect>))
    ensures WellFormed(m) ==> WellFormed(r.0)
    ensures Valid(m.cfg) ==> Valid(r.0.cfg)
    ensures Valid(m.cfg) ==> forall e | e in r.1 && e.StartGame? :: Valid(e.cfg)
    ensures a.None? ==> r == (m, [])
  {
    if a.Some? then Do(m, a.value) else (m, [])
  }

  /**
   * menu_page_keydown on the page showing when the key arrives: ESCAPE runs the page's escape
   * action; a hidden page (checked after that) ignores everything else; otherwise the
   * selection moves and the selected button gets the key.
   */
  function Keydown(m: Menu, k: Key): (r: (Menu, seq<Effect>))
    requires WellFormed(m)
    ensures WellFormed(r.0)
    ensures Valid(m.cfg) ==> Valid(r.0.cfg)
    ensures Valid(m.cfg) ==> forall e | e in r.1 && e.StartGame? :: Valid(e.cfg)
  {
    var id := m.current;
    var (m1, e1) := if k.Escape? then Run(m, EscAction(id)) else (m, []);
    var p := Get(m1, id);
    if p.hidden then (m1, e1)
    else
      var active := Select(p.active, |Buttons(id)|, k);
      var m2 := Set(m1, id, p.(active := active));
      if active >= 0 then
        var (m3, e3) := Press(m2, Buttons(id)[active], k);
        (m3, e1 + e3)
      else (m2, e1)
  }

  /** On a hidden page (the game page while the game is on) every key but ESCAPE does nothing. */
  lemma HiddenIgnores(m: Menu, k: Key)
    requires WellFormed(m) && Get(m, m.current).hidden && !k.Escape?
    ensures Keydown(m, k) == (m, [])
  {
  }

  /** ESCAPE on the game page toggles it, pausing the game exactly when the page shows. */
  lemma EscapeTogglesPause(m: Menu)
    requires WellFormed(m) && m.current == GamePage
    ensures var (r, e) := Keydown(m, Escape);
      r.game.hidden == !m.game.hidden && r.current == GamePage && e == [Pause(!r.game.hidden)]
  {
  }

  /** game_on_finish: the finished game hands over to the results page. */
  function OnFinish(m: Menu): (r: Menu)
    requires WellFormed(m)
    ensures WellFormed(r) && r.current == ResultsPage && r.results.active == 0
    ensures r.cfg == m.cfg && r.start == m.start && r.options == m.options && r.game == m.game
  {
    Open(m, ResultsPage)
  }

  /** On the results page ENTER closes the game and goes back to the start page. */
  lemma FinishThenClose(m: Menu)
    requires WellFormed(m) && !m.results.hidden
    ensures var (r, e) := Keydown(OnFinish(m), Enter);
      r.current == StartPage && r.start.active == 0 && e == [EndGame] && r.cfg == m.cfg
  {
  }

  /** The menu after a series of key presses, with every effect it asked for on the way. */
  function KeydownAll(m: Menu, ks: seq<Key>): (r: (Menu, seq<Effect>))
    requires WellFormed(m)
    ensures WellFormed(r.0)
    decreases |ks|
  {
    if |ks| == 0 then (m, [])
    else
      var (m1, e1) := Keydown(m, ks[0]);
      var (m2, e2) := KeydownAll(m1, ks[1..]);
      (m2, e1 + e2)
  }

  /**
   * Whatever keys are pressed after menu_init, the counts stay within the options page's
   * bounds, and every game started gets such a configuration, one that game_init accepts.
   */
  lemma {:induction false} KeysKeepConfig(m: Menu, ks: seq<Key>)
    requires WellFormed(m) && Valid(m.cfg)
    ensures Valid(KeydownAll(m, ks).0.cfg)
    ensures forall e | e in KeydownAll(m, ks).1 && e.StartGame? :: Valid(e.cfg)
    decreases |ks|
  {
    if |ks| > 0 {
      var (m1, e1) := Keydown(m, ks[0]);
      KeysKeepConfig(m1, ks[1..]);
    }
  }
}
