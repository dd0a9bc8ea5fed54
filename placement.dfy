/**
 * `place_zone` and the state change of `update_metrics`, on values: the
 * board, the resources and the metrics before, and what they become.
 */
module Placement {
  import opened Zones
  import opened Grid
  import opened Ledger
  import opened MetricsBoard

  /** `update_metrics`: the metric effect of the zone, and the Commercial bonus on Money. */
  function UpdateMetrics(m: Metrics, res: Resources, z: Zone, amount: int): (r: (Metrics, Resources))
    requires Money in res
    ensures r.0 == ZoneEffect(m, z, amount)
    ensures r.1.Keys == res.Keys
    ensures forall k :: k in res && k != Money ==> r.1[k] == res[k]
    ensures r.1[Money] == Resource(MoneyAfterBuild(res[Money].current, z), res[Money].rate)
  {
    var res' := if z == Commercial then res[Money := res[Money].(current := MoneyAfterBuild(res[Money].current, z))] else res;
    (ZoneEffect(m, z, amount), res')
  }

  /** The three ways `place_zone` ends; only `Placed` changes anything. */
  datatype Placement = Placed(grid: Board, resources: Resources, metrics: Metrics) | NotEnoughMoney | Occupied

  /**
   * `place_zone(grid, zone_type, x, y, player_resources, metrics)`: money
   * is checked first, then the plot; only when both pass is the cell
   * written, the cost paid and `update_metrics` run.
   */
  function PlaceZone(grid: Board, res: Resources, m: Metrics, z: Zone, x: int, y: int): (r: Placement)
    requires Money in res && 0 <= x < |grid| && 0 <= y < |grid[x]|
    ensures r.NotEnoughMoney? <==> res[Money].current < Cost(z) as real
    ensures r.Occupied? <==> res[Money].current >= Cost(z) as real && grid[x][y] != Empty
    ensures r.Placed? ==>
      && |r.grid| == |grid|
      && (forall i :: 0 <= i < |grid| ==> |r.grid[i]| == |grid[i]|)
      && r.grid[x][y] == Built(z)
      && (forall i, j :: 0 <= i < |grid| && 0 <= j < |grid[i]| && (i, j) != (x, y) ==> r.grid[i][j] == grid[i][j])
      && r.metrics == ZoneEffect(m, z, 1)
      && r.resources.Keys == res.Keys
      && (forall k :: k in res && k != Money ==> r.resources[k] == res[k])
      && r.resources[Money].rate == res[Money].rate
      && r.resources[Money].current == MoneyAfterBuild(res[Money].current - Cost(z) as real, z)
  {
    if res[Money].current >= Cost(z) as real then
      if grid[x][y] == Empty then
        var built := grid[x := grid[x][y := Built(z)]];
        var paid := res[Money := res[Money].(current := res[Money].current - Cost(z) as real)];
        var after := UpdateMetrics(m, paid, z, 1);
        Placed(built, after.1, after.0)
      else
        Occupied
    else
      NotEnoughMoney
  }

  /** Money drops by exactly the cost, and a Commercial zone then earns 5% of what is left. */
  lemma PlacementPrice(grid: Board, res: Resources, m: Metrics, z: Zone, x: int, y: int)
    requires Money in res && 0 <= x < |grid| && 0 <= y < |grid[x]|
    requires PlaceZone(grid, res, m, z, x, y).Placed?
    ensures var paid := res[Money].current - Cost(z) as real;
      PlaceZone(grid, res, m, z, x, y).resources[Money].current == if z == Commercial then paid * 1.05 else paid
  {
  }

  /** A placement keeps the board square, the standard resources and bounded metrics. */
  lemma PlacementKeepsShape(grid: Board, size: nat, res: Resources, m: Metrics, z: Zone, x: int, y: int)
    requires IsSquare(grid, size) && HasStandard(res) && 0 <= x < size && 0 <= y < size
    requires PlaceZone(grid, res, m, z, x, y).Placed?
    ensures var r := PlaceZone(grid, res, m, z, x, y);
      IsSquare(r.grid, size) && HasStandard(r.resources) && Bounded(r.metrics)
  {
  }
}
