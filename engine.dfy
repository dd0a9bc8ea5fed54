/**
 * The in-place side of the engine: the board, resources, metrics and
 * events that `main` hands to `place_zone`, `update_metrics`,
 * `regenerate_resources`, `apply_impact`, `update_resource` and
 * `apply_random_event`, which change them where they are. Each method is
 * proved to leave the state the corresponding value-level definition
 * describes.
 */
module Engine {
  import opened Wrappers
  import opened Zones
  import opened Grid
  import opened Ledger
  import opened MetricsBoard
  import opened Events
  import P = Placement

  class City {
    var grid: Board
    var resources: Resources
    var metrics: Metrics
    var events: seq<Event>

    constructor (grid: Board, resources: Resources, metrics: Metrics, events: seq<Event>)
      ensures this.grid == grid && this.resources == resources
      ensures this.metrics == metrics && this.events == events
    {
      this.grid := grid;
      this.resources := resources;
      this.metrics := metrics;
      this.events := events;
    }

    /** `update_metrics(metrics, player_resources, zone_type, amount)`. */
    method UpdateMetrics(z: Zone, amount: int)
      requires Money in resources
      modifies this
      ensures (metrics, resources) == P.UpdateMetrics(old(metrics), old(resources), z, amount)
      ensures Bounded(metrics)
      ensures grid == old(grid) && events == old(events)
    {
      match z {
        case Residential =>
          metrics := metrics.(employment := metrics.employment - amount * 5);
        case Commercial =>
          var money := resources[Money].current;
          resources := resources[Money := resources[Money].(current := money + money * 0.05)];
          metrics := metrics.(employment := metrics.employment + amount * 2);
          metrics := metrics.(happiness := metrics.happiness - amount * 1);
        case Industrial =>
          metrics := metrics.(happiness := metrics.happiness - amount * 1);
          metrics := metrics.(health := metrics.health - amount * 1);
        case School =>
          metrics := metrics.(employment := metrics.employment + amount * 2);
          metrics := metrics.(happiness := metrics.happiness + amount * 1);
        case Hospital =>
          metrics := metrics.(health := metrics.health + amount * 5);
      }
      metrics := metrics.(employment := Clamp(metrics.employment));
      metrics := metrics.(crime := Clamp(metrics.crime));
      metrics := metrics.(happiness := Clamp(metrics.happiness));
      metrics := metrics.(health := Clamp(metrics.health));
    }

    /**
     * `place_zone(grid, zone_type, x, y, player_resources, metrics)`: on
     * success the state is what `Placement.PlaceZone` describes; when
     * money is short or the plot is taken nothing changes.
     */
    method PlaceZone(z: Zone, x: int, y: int)
      requires Money in resources && 0 <= x < |grid| && 0 <= y < |grid[x]|
      modifies this
      ensures match P.PlaceZone(old(grid), old(resources), old(metrics), z, x, y)
        case Placed(g, res, m) => grid == g && resources == res && metrics == m
        case NotEnoughMoney => grid == old(grid) && resources == old(resources) && metrics == old(metrics)
        case Occupied => grid == old(grid) && resources == old(resources) && metrics == old(metrics)
      ensures events == old(events)
    {
      if resources[Money].current >= Cost(z) as real {
        if grid[x][y] == Empty {
          grid := grid[x := grid[x][y := Built(z)]];
          resources := resources[Money := resources[Money].(current := resources[Money].current - Cost(z) as real)];
          UpdateMetrics(z, 1);
        }
      }
    }

    /** `regenerate_resources(player_resources, total_daily_income)`. */
    method RegenerateResources(income: real)
      requires Money in resources
      modifies this
      ensures resources == Regenerated(old(resources), income)
      ensures grid == old(grid) && metrics == old(metrics) && events == old(events)
    {
      ghost var start := resources;
      var res := resources;
      var pending := res.Keys;
      while pending != {}
        invariant pending <= start.Keys && res.Keys == start.Keys
        invariant forall k :: k in pending ==> res[k] == start[k]
        invariant forall k :: k in start && k !in pending ==>
          res[k] == start[k].(current := start[k].current + start[k].rate)
        decreases pending
      {
        var k :| k in pending;
        res := res[k := res[k].(current := res[k].current + res[k].rate)];
        pending := pending - {k};
      }
      resources := res[Money := res[Money].(current := res[Money].current + income)];
    }

    /** `update_resource(player_resources, resource_type, impact_value)`. */
    method UpdateResource(name: string, impact: Impact)
      requires name in resources
      modifies this
      ensures resources == Ledger.UpdateResource(old(resources), name, impact)
      ensures grid == old(grid) && metrics == old(metrics) && events == old(events)
    {
      match impact {
        case Percent(n) =>
          var modifier := n / 100.0;
          assert Impacted(resources[name].current, impact) == resources[name].current * (1.0 + modifier);
          resources := resources[name := resources[name].(current := resources[name].current * (1.0 + modifier))];
        case Add(n) =>
          resources := resources[name := resources[name].(current := resources[name].current + n)];
      }
    }

    /** `apply_impact(player_resources, impact_type, impact_value)`. */
    method ApplyImpact(impactType: string, impact: Impact)
      requires HasStandard(resources)
      modifies this
      ensures resources == Ledger.ApplyImpact(old(resources), impactType, impact)
      ensures grid == old(grid) && metrics == old(metrics) && events == old(events)
    {
      var target := ImpactTarget(impactType);
      if target.None? {
        return;
      }
      UpdateResource(target.value, impact);
    }

    /**
     * The first loop of `apply_random_event`: each active event with
     * duration left is applied and counted down, and every active event
     * at 0 or below is retired.
     */
    method CountDownActive()
      requires HasStandard(resources)
      modifies this
      ensures events == DecayAll(old(events))
      ensures HasStandard(resources) && resources == ApplyHits(old(resources), Fired(old(events)))
      ensures grid == old(grid) && metrics == old(metrics)
    {
      ghost var start := events;
      ghost var startResources := resources;
      var evs := events;
      var i := 0;
      while i < |evs|
        invariant 0 <= i <= |evs| && evs == PartlyDecayed(start, i)
        invariant HasStandard(resources) && resources == ApplyHits(startResources, Fired(start[..i]))
        invariant grid == old(grid) && metrics == old(metrics) && events == start
      {
        CountDownStep(start, i);
        var e := evs[i];
        if e.active {
          if e.duration > 0 {
            ApplyHitsSnoc(startResources, Fired(start[..i]), HitOf(e));
            ApplyImpact(e.impactType, e.impact);
            e := e.(duration := e.duration - 1);
          }
          if e.duration <= 0 {
            e := e.(active := false);
          }
          evs := evs[i := e];
        }
        i := i + 1;
      }
      CountDownDone(start);
      events := evs;
    }

    /**
     * `apply_random_event(events, player_resources, last_event)`, with
     * `choice` standing for `random.choice`. `raised` is the IndexError of
     * `random.choice` on an empty list; otherwise `returned` is the
     * function's return value.
     */
    method ApplyRandomEvent(last: Option<string>, choice: nat) returns (raised: bool, returned: Option<string>)
      requires HasStandard(resources)
      modifies this
      ensures match Tick(old(events), last, choice)
        case ChoiceFromEmpty => raised
        case Ticked(e, hits, ret) =>
          && !raised && returned == ret && events == e
          && resources == ApplyHits(old(resources), hits)
      ensures grid == old(grid) && metrics == old(metrics)
    {
      ghost var start := events;
      ghost var startResources := resources;
      CountDownActive();
      raised, returned := false, None;
      if AnyActive(events) {
        return;
      }
      var candidates := Candidates(events, last);
      if |candidates| == 0 {
        raised := true;
        return;
      }
      var k := candidates[choice % |candidates|];
      // The chosen event cannot be active here, and its `Duration` is
      // written back unchanged: it keeps the value it was counted down to.
      var started := events[k].(active := true);
      events := events[k := started];
      ApplyHitsSnoc(startResources, Fired(start), HitOf(started));
      ApplyImpact(started.impactType, started.impact);
      returned := Some(started.description);
    }
  }
}
