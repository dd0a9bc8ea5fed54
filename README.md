# McGee Metropolis engine in Dafny

A Dafny model of the simulation engine of McGee Metropolis. McGee Metropolis is a
turn-based city game (`run.py`). The player has 30 days to build zones on a
10 by 10 board. Each zone costs Money and moves four city metrics: Employment Rate,
Crime Rate, Happiness Index and Health. At the start of every pass of the game loop:

- random events may hit the resources (Money, Electricity, Water);
- the resources regenerate and Money earns the board's daily income;
- the game is lost as soon as one metric is past its critical threshold.

After day 30 the game is won if Money has reached 2,000,000 and the
metrics meet their goals; as the goal test is written, that never happens.

The model has one module per part of the engine:

- `Zones` (`zones.dfy`): zone types, their costs, and the validation that
  `handle_zone_action` applies to the typed coordinates and zone letter.
- `Grid` (`grid.dfy`): `initialize_grid` and `initialize_random_grid`.
  `random.shuffle` is modelled as a caller-supplied permutation of every coordinate.
- `Ledger` (`ledger.dfy`): the resource table, `update_resource`,
  `apply_impact` and `regenerate_resources`, on values.
- `MetricsBoard` (`metrics.dfy`): `fetch_metrics`, the effect table and
  clamp of `update_metrics`, and `check_metrics`.
- `Events` (`events.dfy`): `apply_random_event` as a function `Tick` over
  the event list. `random.choice` is a caller-supplied index taken modulo the
  number of candidates. Lemmas cover the event life cycle.
- `Placement` (`placement.dfy`): `place_zone` and `update_metrics` on
  values.
- `Game` (`game.dfy`): `start_new_game`, and one pass of the inner loop of
  `main` as a step function `Pass` over an abstract player `Command`, with
  the day counter, the daily zone cap, restart, exit and the goal test.
- `Seqs` (`seqs.dfy`): a sequence of n copies, shared by `Grid` and `Events`.
- `Engine` (`engine.dfy`): class `City`. Its methods change the board, the
  resources, the metrics and the events in place, as the Python functions
  do. Each method is proved to leave the state that the value-level
  function describes.

Quirks of the code that the model keeps:

- The event call and the regeneration run at the top of every pass of the
  loop, whatever the command. They are not once per day: a `help` or an
  invalid command also triggers them (`Game.HelpStillTicks`).
- `zones_built_today` is never incremented, so the cap of three zones per day
  is never reached (`Game.PassKeepsReachable`).
- A newly drawn event keeps the `Duration` it was counted down to. It is
  not reset to its catalogue value, so an event drawn again at duration 0 is
  active but is retired on the next call without being applied
  (`Events.TickCountsDown`, `Events.SoleActiveLifetime`).
- `apply_random_event` returns None (not `last_event`) while an event is
  still active, and `main` stores that None as `last_event`.
- A restart keeps `zones_built_today`.
- The goal test after day 30 asks every metric, Crime Rate included, to be at
  least 50, so no game can be won (see "## Findings"). `Pass` gives the verdict
  of this test as written. The intended test, with 50 as a ceiling for Crime
  Rate, is stated beside it as `Game.GoalsMet`.

## Model

| member | source | states |
|---|---|---|
| Zones.Cost | run.py:333-338 | Residential costs 1250, Commercial and Industrial 450, School and Hospital 100 |
| Zones.Upper | run.py:546-549 | `.upper()` keeps the length and upper-cases each character on its own (ASCII letters only) |
| Zones.ZoneOfLetter | run.py:546-561 | after upper-casing, exactly the letters R, C, I, S, H (either case) name a zone, each its own |
| Zones.CheckAttempt | run.py:539-572 | an attempt is accepted iff both coordinates are integers in [0, 10) and the letter names a zone; non-numeric input is reported as such and the request carries the typed values |
| Zones.FirstValidFrom | run.py:538-563 | the loop stops at the first attempt from `start` on that validates; every attempt before it fails |
| Zones.FirstValid | run.py:538-563 | the request comes from the first attempt that validates, all earlier ones failing; None iff no attempt validates |
| Grid.EmptyGrid | run.py:277-287 | a size by size board with every cell empty |
| Grid.PlaceRow | run.py:308-312 | popping `count` positions from the end of the list writes the row's zone at each and adds its income each time |
| Grid.InitializeRandomGrid | run.py:290-315 | the board is the empty board painted with `Fill(rows, size*size)` at positions popped from the end of the shuffle, and the income is the sum over the zones placed |
| Grid.FillIsPrefix | run.py:305-312 | taking `min(count, len(positions))` per row places exactly the prefix of all requested zones that fits |
| Grid.RandomGridCount | run.py:305-312 | the number of zones placed is min(sum of counts, size squared), and they are the first that many in row order |
| Grid.PaintLaid | run.py:302-312 | painting keeps the board square; positions not yet popped stay empty, and the k-th popped position holds the k-th zone |
| Grid.RandomGridLayout | run.py:302-315 | on the random board, each of the last `PlacedCount` shuffled positions holds its zone, so no cell is written twice; a cell is empty iff its position was never popped |
| Grid.NothingToPlace | run.py:305-315 | with all counts 0 nothing is placed: the random board is the empty board and the income is 0 |
| Ledger.Impacted | run.py:674-678 | a percentage impact N gives v + v*N/100; any other impact adds N |
| Ledger.ImpactTarget | run.py:650-656 | the three impact types map to Electricity, Money and Water respectively, and nothing else maps |
| Ledger.UpdateResource | run.py:665-678 | only the current value of the named resource changes, by `Impacted`; its rate and every other resource stay |
| Ledger.ApplyImpact | run.py:640-662 | an unmapped impact type changes nothing; a mapped one updates exactly its resource; no key is added or removed |
| Ledger.Regenerated | run.py:490-505 | every resource gains exactly its rate, and Money gains the income on top; keys and rates are unchanged |
| Ledger.PercentCutOfFiveHundred | run.py:674-676 | "-20%" on 500 gives 400 |
| Ledger.AdditiveCutOfFiveHundred | run.py:677-678 | "-50" on 500 gives 450 |
| Ledger.UnmappedImpactIsNoOp | run.py:656-660 | an impact type outside the table leaves every resource unchanged |
| MetricsBoard.Clamp | run.py:750-753 | the result is in [0, 100], equal to the input inside it, 0 below and 100 above |
| MetricsBoard.FetchMetrics | run.py:681-693 | the starting metrics are in [0, 100], pass `check_metrics`, and Crime Rate is 5 |
| MetricsBoard.Delta | run.py:734-747 | the effect table: no zone type has an entry for Crime Rate, and every entry is between -5 and 5 |
| MetricsBoard.ZoneEffect | run.py:734-753 | after `update_metrics` every metric is in [0, 100], whatever the zone or amount |
| MetricsBoard.ZoneEffectMatchesTable | run.py:734-753 | each metric becomes the clamp of its old value plus the zone's table entry times the amount |
| MetricsBoard.MoneyAfterBuild | run.py:736-737 | a Commercial zone multiplies Money by 1.05; no other zone touches Money |
| MetricsBoard.FirstBreach | run.py:712-720 | the loop reports the first metric, in dictionary order, past its threshold; None iff no metric is |
| MetricsBoard.CheckMetrics | run.py:696-721 | true iff Crime Rate <= 30 and every other metric >= 50 |
| MetricsBoard.ZoneEffectDirection | run.py:734-753 | on bounded metrics a positive table entry never lowers its metric, a negative one never raises it, and a zero one leaves it alone |
| MetricsBoard.CrimeOnlyClamped | run.py:751 | Crime Rate changes only through the clamp, so a bounded Crime Rate never changes |
| MetricsBoard.ResidentialFromSeventy | run.py:734-735 | one Residential zone from Employment Rate 70 gives 65 |
| MetricsBoard.ThousandResidentialClamp | run.py:734-750 | many Residential zones at once clamp Employment Rate to 0 |
| MetricsBoard.ThresholdsInclusive | run.py:706-721 | Crime Rate 30 with the others at 50 passes; Crime Rate 31 or a metric at 49 fails |
| Events.Decay | run.py:604-618 | an active event with duration left is counted down by one; it is retired when the duration is 0 or below; an inactive event is untouched |
| Events.DecayAll | run.py:603-618 | the first loop counts down each event on its own, keeping the list length |
| Events.Fired | run.py:603-615 | the first loop applies at most one impact per active event |
| Events.Tick | run.py:592-637 | a call that does not raise keeps the number of events and always leaves at least one event active; an event it draws is never `last_event` |
| Events.Candidates | run.py:621 | the candidates are exactly the events whose description is not `last_event` |
| Events.ApplyHits | run.py:613-615 | applying the hits in turn adds or removes no resource |
| Events.DecayNeverActivates | run.py:604-618 | the first loop never switches an event on |
| Events.TickKeepsOneActive | run.py:603-636 | if at most one event is active before a call, exactly one is active after it |
| Events.TickCountsDown | run.py:604-624 | per event, the duration moves as the first loop says, while description and impact are kept; an event switched on by the call is the one it returns |
| Events.TickStartsOnlyWhenIdle | run.py:620-636 | a new event is drawn iff no event is left active; while one is, the call returns None. A drawn event is never `last_event`, is active, and has its impact applied in the same call |
| Events.TickFailsOnlyWithoutCandidates | run.py:620-621 | `random.choice` raises iff no event is left active and every description equals `last_event` |
| Events.SoleActiveRun | run.py:604-618 | while the only active event has duration left, each call applies it once and counts it down, and it stays the only active one |
| Events.SoleActiveTick | run.py:604-620 | with the only active event above duration 1, one call applies it once and leaves it active one lower, returning None |
| Events.SoleActiveLastTick | run.py:604-636 | at duration 1 the call applies it once more and leaves duration 0; it is active afterwards only if it was drawn again |
| Events.SoleActiveLifetime | run.py:603-636 | an event alone and active with duration d is applied on each of the next d calls, then has duration 0; it is active only if the last call drew it again |
| Events.RunTicks | run.py:884 | feeding each call's return value back as `last_event` keeps the number of events |
| Placement.UpdateMetrics | run.py:724-753 | the metrics become `ZoneEffect`; only Money's current value changes, by `MoneyAfterBuild` |
| Placement.PlaceZone | run.py:318-353 | money is checked first (short iff Money < cost), then the plot (occupied iff not empty). On success only the chosen cell changes, to the zone, and the metrics are updated; Money loses exactly the cost before the Commercial bonus; keys and rates stay |
| Placement.PlacementPrice | run.py:339-350 | a placement leaves Money at (Money - cost) * 1.05 for Commercial and Money - cost otherwise |
| Placement.PlacementKeepsShape | run.py:339-350 | a placement keeps the board square, the standard resources, and the metrics in [0, 100] |
| Game.MinMetric | run.py:862-867 | every entry of `min_metrics` is 50, and the Crime Rate entry is above the metrics check's ceiling of 30 |
| Game.GoalsMetAsWritten | run.py:940-942 | the goal test as written: Money >= 2,000,000 and every metric, Crime Rate included, >= 50 |
| Game.GoalsMet | run.py:861-867 | the goal test as intended: Money >= 2,000,000, Crime Rate <= 50, and the other metrics >= 50 |
| Game.StartNewGame | run.py:796-816 | a new game is on day 1, not over, with no last event, the fetched metrics and no active event. With zone rows, the board is `Paint` of the empty board with `Fill(rows, 100)` from the end of the shuffle, its empty cells are the positions never popped, and the income is that of the zones placed. Without zone rows, the board is empty and the income 0. The new state satisfies the invariant that `PassKeepsReachable` preserves |
| Game.EndOfPass | run.py:938-945 | the goal test, as written, runs only once the day counter is past 30; its verdict is the outcome, and nothing changes |
| Game.BuildRequested | run.py:561-562 | a validated build leaves the board, resources and metrics that `place_zone` gives when it builds, and the whole state unchanged when money is short or the plot is taken; the day, counters and events never change |
| Game.AfterTick | run.py:884-885 | the top of every pass replaces the events and `last_event` and regenerates the resources after the hits; nothing else changes |
| Game.Act | run.py:894-936 | the command part of a pass never ends in a loss and never raises |
| Game.Pass | run.py:873-945 | a pass keeps the board square and the standard resources |
| Game.ActKeepsReachable | run.py:894-936 | the command part keeps the reachable-state invariant |
| Game.PassKeepsReachable | run.py:869-945 | from a reachable state, a pass keeps: metrics in [0, 100], Crime Rate 5, at most one active event, and no zones counted today |
| Game.GoalsContradictCheck | run.py:862-867 | the goal test as written implies a failed metrics check |
| Game.GoalsAsWrittenExample | run.py:940-942 | the starting metrics with 2,000,000 Money meet the intended goal test but not the one written |
| Game.CheckedGoals | run.py:940-942 | once the metrics check has passed, the intended goal test is met iff Money >= 2,000,000 |
| Game.ActKeepsCheckedCrime | run.py:894-942 | a state that reaches the goal test still has Crime Rate <= 30, so the command part never ends in a win |
| Game.NeverWonAsWritten | run.py:884-942 | no pass ends in a win: a finished pass fails the goal test as written |
| Game.LossComesFirst | run.py:884-892 | a pass ends in a loss iff the metrics it started with fail the check; the command is then ignored, and the day and board stay |
| Game.HelpStillTicks | run.py:884-885 | a help pass leaves the day as it was but still applies the event hits, the rates and the income |
| Game.NextDayAdvances | run.py:906-945 | `next` advances the day and resets the counter. Only leaving day 30 runs the goal test, and that pass is lost whatever the Money |
| Game.IntendedDayThirty | run.py:938-942 | on the pass that leaves day 30 the metrics are those the check passed, so the intended goal test holds iff Money has reached 2,000,000 |
| Game.ExitQuits | run.py:917-921 | a confirmed exit ends the pass with the play-again answer, after the event call and the regeneration and without the goal test |
| Game.RestartStartsOver | run.py:909-914 | a confirmed restart puts the new game in place, with no last event, the day's zone counter kept and no goal test; an unconfirmed one leaves the state after the event call and regeneration, and play goes on |
| Engine.City.constructor | run.py:869 | the city holds the given board, resources, metrics and events |
| Engine.City.UpdateMetrics | run.py:724-753 | the in-place update leaves exactly the state `Placement.UpdateMetrics` gives, with metrics in [0, 100] |
| Engine.City.PlaceZone | run.py:318-353 | the in-place placement leaves the state `Placement.PlaceZone` gives on success, and changes nothing when money is short or the plot is taken |
| Engine.City.RegenerateResources | run.py:490-505 | the loop over the resource table leaves exactly `Regenerated` of the old table |
| Engine.City.UpdateResource | run.py:665-678 | the in-place update leaves exactly `Ledger.UpdateResource` of the old table |
| Engine.City.ApplyImpact | run.py:640-662 | the in-place impact leaves exactly `Ledger.ApplyImpact` of the old table |
| Engine.City.CountDownActive | run.py:603-618 | the first loop leaves the events `DecayAll` of the old ones, and the resources with their hits applied in list order |
| Engine.City.ApplyRandomEvent | run.py:592-637 | the in-place call leaves the events, resources and return value that `Tick` gives, and raises exactly when `Tick` does |

## Left out

- Google Sheets access (`fetch_zone_data`, `fetch_player_resources`, `fetch_events`, `get_resources`, `update_resources_in_sheet`, `reset_resources_to_default`) is network I/O. The zone rows, the resource table and the events are inputs.
- Console output and prompts (`print_*`, `show_*`, `clear_screen`, `confirm_restart`, `confirm_exit`, the `input()` loops and `time.sleep` effects) are left out. A pass gets the player's answers as a `Command`. The prompt loop of `handle_zone_action` gets a finite list of attempts, with coordinates already parsed by `int()` (None when `ValueError` was raised).
- `random.shuffle` and `random.choice` are parameters: a permutation of all coordinates, and an index taken modulo the number of candidates.
- String-to-number parsing of impact values and sheet figures is left out. Impacts are the parsed variant `Percent(N) | Add(N)`, and floating point values are modelled as exact reals.
- `str.upper` is modelled for ASCII letters only. Python's `.upper()` also maps the dotless `ı` to `I` and the long `ſ` to `S`, so `handle_zone_action` accepts those two letters as Industrial and School; `Zones.ZoneOfLetter` rejects them.
- The outer `while True` of `main` is not modelled: what follows the end of a game, the play-again question, `exit()` and the process end. `Quit(playAgain)` and the `Finished`/`Lost` outcomes stop there.
- `update_resources_in_sheet` at the end of each pass is left out; it only writes the resources out.
- The resource table is required to hold Money, Electricity and Water rows (`HasStandard`). The code would raise KeyError without them. Nothing in it guarantees the rows: `reset_resources_to_default` only updates values next to labels it finds, and cannot add a missing row.
- A zone row is one of the five zone types. The zone sheet could name another type. `initialize_random_grid` (run.py:307-313) would then write that name into cells and count its income, and `place_zone` would treat those cells as occupied. The model has no such cells.
- The dead `return last_event` branch of `apply_random_event` is left out. It runs when the drawn event is already active, which cannot happen because a draw only occurs when no event is active.
- `apply_random_event` iterates over a snapshot list of the active events. The model iterates over all events and skips the inactive ones, which gives the same result because the loop changes only the events it visits.
- Grid.PlaceRow: the inner `for` loop of `initialize_random_grid` is stated as its own method, so that each loop is proved on its own.
- Events.RunTicks: only the length of the event list is stated for a run of calls in general. What a run does is stated by `Events.SoleActiveRun` and `Events.SoleActiveLifetime`.

## Findings

| source | as written | input that shows it | evidently intended | confidence | as-written member | corrected member |
|---|---|---|---|---|---|---|
| run.py:862-867 | `min_metrics` sets 50 for Crime Rate and the goal test at run.py:942 requires every metric `>=` its entry, so a win needs Crime Rate >= 50, while `check_metrics` has already ended every game with Crime Rate above 30 | 2,000,000 Money with the starting metrics (Employment 70, Crime 5, Happiness 75, Health 80) passes the metrics check but fails the goal test; no state can pass both | the comment calls the table "Minimum / maximum acceptable metric values": Crime Rate 50 is a ceiling, the others floors | medium; not executed | Game.NeverWonAsWritten | Game.IntendedDayThirty |
