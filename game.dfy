/**
 * The game session of `main`: one pass of its inner `while` loop as a step
 * function over an abstract player command, the start of a game
 * (`start_new_game`) and the end-of-game goal test.
 */
module Game {
  import opened Wrappers
  import opened Zones
  import opened Grid
  import opened Ledger
  import opened MetricsBoard
  import opened Events
  import opened Placement

  /** The game lasts 30 days: the loop runs while `current_day <= 30`. */
  const MaxDays: int := 30

  /** `MAX_ZONES_PER_DAY`. */
  const MaxZonesPerDay: int := 3

  /** `monetary_goal`. */
  const MonetaryGoal: real := 2000000.0

  /**
   * `min_metrics` of `main`: 50 for every metric, Crime Rate included,
   * which is above the ceiling of 30 the metrics check allows it.
   */
  function MinMetric(n: MetricName): (v: int)
    ensures v == 50
    ensures n == CrimeRate ==> v > Threshold(n)
  {
    50
  }

  /** The goal test after day 30 exactly as `main` writes it: every metric, Crime Rate included, at least its entry. */
  function GoalsMetAsWritten(money: real, m: Metrics): (ok: bool)
    ensures ok <==> money >= MonetaryGoal && m.employment >= 50 && m.crime >= 50 && m.happiness >= 50 && m.health >= 50
  {
    assert Value(m, EmploymentRate) == m.employment && Value(m, CrimeRate) == m.crime;
    assert Value(m, HappinessIndex) == m.happiness && Value(m, Health) == m.health;
    money >= MonetaryGoal && forall n :: Value(m, n) >= MinMetric(n)
  }

  /**
   * The goal test as intended: `min_metrics` holds "minimum / maximum"
   * values, so its entry for Crime Rate is a ceiling and the rest are floors.
   */
  function GoalsMet(money: real, m: Metrics): (ok: bool)
    ensures ok <==> money >= MonetaryGoal && m.employment >= 50 && m.crime <= 50 && m.happiness >= 50 && m.health >= 50
  {
    assert Value(m, EmploymentRate) == m.employment && Value(m, CrimeRate) == m.crime;
    assert Value(m, HappinessIndex) == m.happiness && Value(m, Health) == m.health;
    money >= MonetaryGoal && forall n :: if n == CrimeRate then Value(m, n) <= MinMetric(n) else Value(m, n) >= MinMetric(n)
  }

  /** The locals of `main` that one game's loop reads and writes. */
  datatype GameState = GameState(
    grid: Board,
    income: real,
    resources: Resources,
    metrics: Metrics,
    events: seq<Event>,
    day: int,
    gameOver: bool,
    lastEvent: Option<string>,
    zonesBuiltToday: int)

  ghost predicate Valid(s: GameState)
  {
    IsSquare(s.grid, GridSize) && HasStandard(s.resources)
  }

  /**
   * What the player answers in one pass: the action typed at the prompt,
   * with the answers of the prompts that follow it (the coordinate and
   * zone prompts of `handle_zone_action`, `confirm_restart`,
   * `confirm_exit`, and the play-again question of `show_goodbye_message`).
   */
  datatype Command =
    | BuildZone(attempts: seq<Attempt>)
    | NextDay
    | Help
    | Restart(confirmed: bool)
    | Exit(confirmed: bool, playAgain: bool)
    | Unrecognised

  /**
   * How a pass ends: the loop goes on, the metrics check ended the game,
   * day 30 is over (with the goal test's verdict), the player left, or
   * `random.choice` had nothing to choose from and raised.
   */
  datatype Outcome = Playing | Lost | Finished(won: bool) | Quit(playAgain: bool) | NoEventToChoose

  datatype PassResult = PassResult(state: GameState, outcome: Outcome)

  /** What every reachable state satisfies. */
  ghost predicate Reachable(s: GameState)
  {
    && Valid(s)
    && Bounded(s.metrics)
    && s.metrics.crime == 5
    && ActiveCount(s.events) <= 1
    && s.zonesBuiltToday == 0
  }

  /**
   * `start_new_game`: the board is randomised from the zone rows when
   * there are any, and empty with no income otherwise; metrics start from
   * `fetch_metrics` and the day counter at 1. `shuffled` is the outcome of
   * `random.shuffle`; the resources and events are as the sheets supplied
   * them, every event inactive.
   */
  method StartNewGame(rows: seq<ZoneRow>, shuffled: seq<(int, int)>, resources: Resources, events: seq<Event>)
    returns (s: GameState)
    requires IsShuffle(shuffled, GridSize) && HasStandard(resources)
    requires forall i :: 0 <= i < |events| ==> !events[i].active
    ensures Valid(s)
    ensures s.day == 1 && !s.gameOver && s.lastEvent.None? && s.zonesBuiltToday == 0
    ensures s.metrics == FetchMetrics() && s.resources == resources && s.events == events
    ensures ActiveCount(s.events) == 0
    ensures Reachable(s)
    ensures rows == [] ==> s.grid == EmptyGrid(GridSize) && s.income == 0.0
    ensures rows != [] ==> s.grid == Paint(EmptyGrid(GridSize), shuffled, Fill(rows, |shuffled|))
    ensures rows != [] ==> s.income == IncomeOf(Expand(rows)[..PlacedCount(rows, GridSize)])
    ensures rows != [] ==> forall x, y :: 0 <= x < GridSize && 0 <= y < GridSize ==>
      (s.grid[x][y] == Empty <==> (x, y) in shuffled[..|shuffled| - PlacedCount(rows, GridSize)])
  {
    var grid: Board;
    var income: real;
    if |rows| > 0 {
      grid, income := InitializeRandomGrid(GridSize, rows, shuffled);
      RandomGridCount(GridSize, rows, shuffled);
      RandomGridLayout(GridSize, rows, shuffled, grid);
    } else {
      grid, income := EmptyGrid(GridSize), 0.0;
    }
    s := GameState(grid, income, resources, FetchMetrics(), events, 1, false, None, 0);
    ActiveCountPositive(events);
  }

  /** The tail of a pass that did not return early: the day-30 check, with the goal test as written. */
  function EndOfPass(s: GameState): (r: PassResult)
    requires HasStandard(s.resources)
    ensures r.state == s
    ensures r.outcome == (if s.day > MaxDays then Finished(GoalsMetAsWritten(s.resources[Money].current, s.metrics)) else Playing)
  {
    if s.day > MaxDays then PassResult(s, Finished(GoalsMetAsWritten(s.resources[Money].current, s.metrics)))
    else PassResult(s, Playing)
  }

  /**
   * `handle_zone_action` for a request that passed validation: the board,
   * resources and metrics `place_zone` leaves when it builds, and the
   * state unchanged when money is short or the plot is taken.
   */
  function BuildRequested(s: GameState, req: Request): (r: GameState)
    requires Valid(s) && 0 <= req.x < GridSize && 0 <= req.y < GridSize
    ensures Valid(r)
    ensures r.day == s.day && r.gameOver == s.gameOver && r.zonesBuiltToday == s.zonesBuiltToday
    ensures r.events == s.events && r.lastEvent == s.lastEvent
    ensures match PlaceZone(s.grid, s.resources, s.metrics, req.zone, req.x, req.y)
      case Placed(g, res, m) => r == s.(grid := g, resources := res, metrics := m)
      case NotEnoughMoney => r == s
      case Occupied => r == s
  {
    match PlaceZone(s.grid, s.resources, s.metrics, req.zone, req.x, req.y)
    case Placed(g, res, m) =>
      PlacementKeepsShape(s.grid, GridSize, s.resources, s.metrics, req.zone, req.x, req.y);
      s.(grid := g, resources := res, metrics := m)
    case NotEnoughMoney => s
    case Occupied => s
  }

  /**
   * The first two calls of every pass: `apply_random_event` has left the
   * events, hits and return value of `t`, and `regenerate_resources`
   * runs on what the hits left. Nothing else in the state changes.
   */
  function AfterTick(s: GameState, events: seq<Event>, hits: seq<Hit>, returned: Option<string>): (r: GameState)
    requires HasStandard(s.resources)
    ensures HasStandard(r.resources) && (Valid(s) ==> Valid(r))
    ensures r == s.(events := events, lastEvent := returned, resources := r.resources)
    ensures r.resources == Regenerated(ApplyHits(s.resources, hits), s.income)
  {
    s.(events := events, lastEvent := returned, resources := Regenerated(ApplyHits(s.resources, hits), s.income))
  }

  /**
   * The command part of a pass, once the metrics check has passed: a
   * build while under the daily cap, `next`, `restart`, `exit`, or
   * anything else, which only reaches the day-30 check.
   */
  function Act(s: GameState, cmd: Command, newGame: GameState): (r: PassResult)
    requires Valid(s) && Valid(newGame)
    requires cmd.BuildZone? ==> FirstValid(cmd.attempts).Some?
    ensures Valid(r.state)
    ensures r.outcome != Lost && r.outcome != NoEventToChoose
  {
    if s.zonesBuiltToday < MaxZonesPerDay then
      match cmd
      case BuildZone(attempts) => EndOfPass(BuildRequested(s, FirstValid(attempts).value))
      case NextDay => EndOfPass(s.(day := s.day + 1, zonesBuiltToday := 0))
      case Restart(confirmed) =>
        if confirmed then
          PassResult(s.(grid := newGame.grid, income := newGame.income, resources := newGame.resources,
                        metrics := newGame.metrics, events := newGame.events, day := newGame.day,
                        lastEvent := None), Playing)
        else EndOfPass(s)
      case Help => EndOfPass(s)
      case Exit(confirmed, playAgain) => if confirmed then PassResult(s, Quit(playAgain)) else EndOfPass(s)
      case Unrecognised => EndOfPass(s)
    else
      match cmd
      case NextDay => EndOfPass(s.(day := s.day + 1, zonesBuiltToday := 0))
      case Exit(confirmed, playAgain) => if confirmed then PassResult(s, Quit(playAgain)) else EndOfPass(s)
      case _ => EndOfPass(s)
  }

  /**
   * One pass of the inner loop of `main`, run while `current_day <= 30`
   * and not `game_over`: the event call and the regeneration come first
   * on every pass, whatever the command, then the metrics check, then the
   * command. `choice` stands for `random.choice`; `newGame` is what
   * `start_new_game` returned when the player confirms a restart.
   */
  function Pass(s: GameState, cmd: Command, choice: nat, newGame: GameState): (r: PassResult)
    requires Valid(s) && Valid(newGame) && s.day <= MaxDays && !s.gameOver
    requires cmd.BuildZone? ==> FirstValid(cmd.attempts).Some?
    ensures Valid(r.state)
  {
    match Tick(s.events, s.lastEvent, choice)
    case ChoiceFromEmpty => PassResult(s, NoEventToChoose)
    case Ticked(events, hits, returned) =>
      var ticked := AfterTick(s, events, hits, returned);
      if !CheckMetrics(ticked.metrics) then PassResult(ticked.(gameOver := true), Lost)
      else Act(ticked, cmd, newGame)
  }

  /** The command part keeps the reachable-state invariant. */
  lemma ActKeepsReachable(s: GameState, cmd: Command, newGame: GameState)
    requires Reachable(s) && Reachable(newGame)
    requires cmd.BuildZone? ==> FirstValid(cmd.attempts).Some?
    ensures Reachable(Act(s, cmd, newGame).state)
  {
    if cmd.BuildZone? {
      var req := FirstValid(cmd.attempts).value;
      var b := BuildRequested(s, req);
      if b.metrics != s.metrics {
        CrimeOnlyClamped(s.metrics, req.zone, 1);
        assert Bounded(ZoneEffect(s.metrics, req.zone, 1));
      }
    }
  }

  /**
   * A pass keeps the reachable-state invariant: metrics stay in [0, 100],
   * Crime Rate stays at its starting 5, at most one event is active, and
   * `zones_built_today` stays 0, so the cap of three is never hit.
   */
  lemma PassKeepsReachable(s: GameState, cmd: Command, choice: nat, newGame: GameState)
    requires Reachable(s) && Reachable(newGame) && s.day <= MaxDays && !s.gameOver
    requires cmd.BuildZone? ==> FirstValid(cmd.attempts).Some?
    ensures Reachable(Pass(s, cmd, choice, newGame).state)
  {
    var t := Tick(s.events, s.lastEvent, choice);
    if t.Ticked? {
      TickKeepsOneActive(s.events, s.lastEvent, choice);
      var ticked := AfterTick(s, t.events, t.hits, t.returned);
      if CheckMetrics(ticked.metrics) {
        ActKeepsReachable(ticked, cmd, newGame);
      }
    }
  }

  /**
   * The goal test as written can never be met together with the metrics
   * check: it asks for Crime Rate >= 50, the check for Crime Rate <= 30.
   */
  lemma GoalsContradictCheck(money: real, m: Metrics)
    requires GoalsMetAsWritten(money, m)
    ensures !CheckMetrics(m)
  {
    assert Value(m, CrimeRate) >= 50;
  }

  /** The starting metrics with the monetary goal reached: a win as intended, a loss as written. */
  lemma GoalsAsWrittenExample()
    ensures GoalsMet(MonetaryGoal, FetchMetrics())
    ensures !GoalsMetAsWritten(MonetaryGoal, FetchMetrics())
  {
    assert Value(FetchMetrics(), CrimeRate) == 5;
  }

  /** Once the metrics check has passed, the intended goal test comes down to the money. */
  lemma CheckedGoals(money: real, m: Metrics)
    requires CheckMetrics(m)
    ensures GoalsMet(money, m) <==> money >= MonetaryGoal
  {
  }

  /** The state the command part leaves for the goal test has passed the metrics check. */
  lemma ActKeepsCheckedCrime(s: GameState, cmd: Command, newGame: GameState)
    requires Valid(s) && Valid(newGame) && CheckMetrics(s.metrics)
    requires cmd.BuildZone? ==> FirstValid(cmd.attempts).Some?
    ensures var r := Act(s, cmd, newGame);
      && (r.outcome.Finished? ==> r.state.metrics.crime <= 30)
      && r.outcome != Finished(true)
  {
    if cmd.BuildZone? && s.zonesBuiltToday < MaxZonesPerDay {
      var req := FirstValid(cmd.attempts).value;
      CrimeOnlyClamped(s.metrics, req.zone, 1);
      assert BuildRequested(s, req).metrics.crime <= 30;
    }
  }

  /**
   * Under the goal test as written no pass ever ends in a win: the test
   * asks for a Crime Rate the metrics check has already refused.
   */
  lemma NeverWonAsWritten(s: GameState, cmd: Command, choice: nat, newGame: GameState)
    requires Valid(s) && Valid(newGame) && s.day <= MaxDays && !s.gameOver
    requires cmd.BuildZone? ==> FirstValid(cmd.attempts).Some?
    ensures var r := Pass(s, cmd, choice, newGame);
      && (r.outcome.Finished? ==> !GoalsMetAsWritten(r.state.resources[Money].current, r.state.metrics))
      && r.outcome != Finished(true)
  {
    var t := Tick(s.events, s.lastEvent, choice);
    if t.Ticked? {
      var ticked := AfterTick(s, t.events, t.hits, t.returned);
      if CheckMetrics(ticked.metrics) {
        ActKeepsCheckedCrime(ticked, cmd, newGame);
      }
    }
  }

  /**
   * The metrics check sees the metrics the pass started with (events and
   * regeneration touch resources only), and a failed check ends the game
   * before the command is looked at.
   */
  lemma LossComesFirst(s: GameState, cmd: Command, choice: nat, newGame: GameState)
    requires Valid(s) && Valid(newGame) && s.day <= MaxDays && !s.gameOver
    requires cmd.BuildZone? ==> FirstValid(cmd.attempts).Some?
    requires Tick(s.events, s.lastEvent, choice).Ticked?
    ensures var r := Pass(s, cmd, choice, newGame);
      (r.outcome == Lost <==> !CheckMetrics(s.metrics))
      && (r.outcome == Lost ==> r.state.gameOver && r.state.day == s.day && r.state.grid == s.grid)
  {
    var t := Tick(s.events, s.lastEvent, choice);
    var ticked := AfterTick(s, t.events, t.hits, t.returned);
    assert ticked.metrics == s.metrics && ticked.grid == s.grid && ticked.day == s.day;
  }

  /**
   * The event call and the regeneration run on every pass, not once per
   * day: a Help pass leaves the day as it was and still applies the
   * event hits, the regeneration rates and the daily income.
   */
  lemma HelpStillTicks(s: GameState, choice: nat, newGame: GameState)
    requires Valid(s) && Valid(newGame) && s.day <= MaxDays && !s.gameOver
    requires CheckMetrics(s.metrics) && s.zonesBuiltToday < MaxZonesPerDay
    requires Tick(s.events, s.lastEvent, choice).Ticked?
    ensures var r := Pass(s, Help, choice, newGame);
      var t := Tick(s.events, s.lastEvent, choice);
      && r.outcome == Playing
      && r.state.day == s.day
      && r.state.events == t.events
      && r.state.resources == Regenerated(ApplyHits(s.resources, t.hits), s.income)
  {
    var t := Tick(s.events, s.lastEvent, choice);
    var ticked := AfterTick(s, t.events, t.hits, t.returned);
    assert ticked.metrics == s.metrics && ticked.day == s.day && ticked.zonesBuiltToday == s.zonesBuiltToday;
  }

  /**
   * `next` moves to the next day, and only the pass that leaves day 30
   * runs the goal test as written, which a state that passed the metrics
   * check always fails: that pass is lost whatever the Money.
   * `IntendedDayThirty` gives the intended verdict.
   */
  lemma NextDayAdvances(s: GameState, choice: nat, newGame: GameState)
    requires Valid(s) && Valid(newGame) && s.day <= MaxDays && !s.gameOver
    requires CheckMetrics(s.metrics)
    requires Tick(s.events, s.lastEvent, choice).Ticked?
    ensures var r := Pass(s, NextDay, choice, newGame);
      && r.state.day == s.day + 1
      && r.state.zonesBuiltToday == 0
      && (r.outcome.Finished? <==> s.day == MaxDays)
      && (r.outcome == Playing <==> s.day < MaxDays)
      && (s.day == MaxDays ==> r.outcome == Finished(false))
  {
    var t := Tick(s.events, s.lastEvent, choice);
    var ticked := AfterTick(s, t.events, t.hits, t.returned);
    assert ticked.metrics == s.metrics && ticked.day == s.day;
  }

  /**
   * What the intended goal test would decide on the pass that leaves day
   * 30: the metrics check has passed, so the verdict is the money alone.
   */
  lemma IntendedDayThirty(s: GameState, choice: nat, newGame: GameState)
    requires Valid(s) && Valid(newGame) && s.day == MaxDays && !s.gameOver
    requires CheckMetrics(s.metrics)
    requires Tick(s.events, s.lastEvent, choice).Ticked?
    ensures var r := Pass(s, NextDay, choice, newGame);
      && r.state.metrics == s.metrics
      && (GoalsMet(r.state.resources[Money].current, r.state.metrics) <==> r.state.resources[Money].current >= MonetaryGoal)
  {
    var t := Tick(s.events, s.lastEvent, choice);
    var ticked := AfterTick(s, t.events, t.hits, t.returned);
    assert ticked.metrics == s.metrics && ticked.day == s.day;
    CheckedGoals(ticked.resources[Money].current, s.metrics);
  }

  /**
   * A confirmed restart replaces the game by the one `start_new_game`
   * returned, clears `last_event`, keeps the day's zone counter and skips
   * the goal test; an unconfirmed one only reaches the day-30 check.
   */
  lemma RestartStartsOver(s: GameState, confirmed: bool, choice: nat, newGame: GameState)
    requires Valid(s) && Valid(newGame) && s.day <= MaxDays && !s.gameOver
    requires CheckMetrics(s.metrics) && s.zonesBuiltToday < MaxZonesPerDay
    requires Tick(s.events, s.lastEvent, choice).Ticked?
    ensures var r := Pass(s, Restart(confirmed), choice, newGame);
      var t := Tick(s.events, s.lastEvent, choice);
      && r.outcome == Playing
      && (confirmed ==> r.state == newGame.(gameOver := false, lastEvent := None, zonesBuiltToday := s.zonesBuiltToday))
      && (!confirmed ==> r.state == AfterTick(s, t.events, t.hits, t.returned))
  {
    var t := Tick(s.events, s.lastEvent, choice);
    var ticked := AfterTick(s, t.events, t.hits, t.returned);
    assert ticked.metrics == s.metrics && ticked.day == s.day && ticked.zonesBuiltToday == s.zonesBuiltToday;
  }

  /**
   * A confirmed exit ends the game after the event call and the
   * regeneration, skipping the goal test, with the play-again answer as
   * the outcome; the sheet update at the end of the pass is skipped too.
   */
  lemma ExitQuits(s: GameState, playAgain: bool, choice: nat, newGame: GameState)
    requires Valid(s) && Valid(newGame) && s.day <= MaxDays && !s.gameOver
    requires CheckMetrics(s.metrics)
    requires Tick(s.events, s.lastEvent, choice).Ticked?
    ensures var t := Tick(s.events, s.lastEvent, choice);
      Pass(s, Exit(true, playAgain), choice, newGame) == PassResult(AfterTick(s, t.events, t.hits, t.returned), Quit(playAgain))
  {
    var t := Tick(s.events, s.lastEvent, choice);
    assert AfterTick(s, t.events, t.hits, t.returned).metrics == s.metrics;
  }
}
