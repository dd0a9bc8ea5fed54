/**
 * The player's resources: a table from resource name to current value and
 * regeneration rate, with daily regeneration and the event impacts
 * (`regenerate_resources`, `apply_impact`, `update_resource`).
 */
module Ledger {
  import opened Wrappers

  datatype Resource = Resource(current: real, rate: real)

  /** `player_resources`, keyed by the names read from the resources sheet. */
  type Resources = map<string, Resource>

  const Money: string := "Money"
  const Electricity: string := "Electricity"
  const Water: string := "Water"

  /** The three rows the engine indexes by name; the code raises KeyError without them. */
  predicate HasStandard(res: Resources)
  {
    Money in res && Electricity in res && Water in res
  }

  /** An event's impact value once parsed: `"N%"` or a plain number. */
  datatype Impact = Percent(n: real) | Add(n: real)

  /** `update_resource` on one value: scale by (1 + N/100), or add. */
  function Impacted(v: real, impact: Impact): (r: real)
    ensures impact.Percent? ==> r == v + v * impact.n / 100.0
    ensures impact.Add? ==> r - v == impact.n
  {
    match impact
    case Percent(n) => v * (1.0 + n / 100.0)
    case Add(n) => v + n
  }

  /** `impact_type_map`: which resource an event's impact type hits, if any. */
  function ImpactTarget(impactType: string): (r: Option<string>)
    ensures r.Some? <==>
      impactType in {"an electricity supply reduction", "an income reduction", "a water supply reduction"}
    ensures r == Some(Electricity) <==> impactType == "an electricity supply reduction"
    ensures r == Some(Money) <==> impactType == "an income reduction"
    ensures r == Some(Water) <==> impactType == "a water supply reduction"
  {
    if impactType == "an electricity supply reduction" then Some(Electricity)
    else if impactType == "an income reduction" then Some(Money)
    else if impactType == "a water supply reduction" then Some(Water)
    else None
  }

  /** `update_resource`: only the current value of the named resource changes. */
  function UpdateResource(res: Resources, name: string, impact: Impact): (r: Resources)
    requires name in res
    ensures r.Keys == res.Keys
    ensures r[name] == Resource(Impacted(res[name].current, impact), res[name].rate)
    ensures forall k :: k in res && k != name ==> r[k] == res[k]
  {
    res[name := res[name].(current := Impacted(res[name].current, impact))]
  }

  /** `apply_impact`: an unmapped impact type changes nothing. */
  function ApplyImpact(res: Resources, impactType: string, impact: Impact): (r: Resources)
    requires HasStandard(res)
    ensures r.Keys == res.Keys
    ensures ImpactTarget(impactType).None? ==> r == res
    ensures ImpactTarget(impactType).Some? ==> r == UpdateResource(res, ImpactTarget(impactType).value, impact)
  {
    match ImpactTarget(impactType)
    case None => res
    case Some(name) => UpdateResource(res, name, impact)
  }

  /**
   * `regenerate_resources`: every resource gains its own rate, then Money
   * gains the daily income; no resource is added or removed and no rate
   * changes.
   */
  function Regenerated(res: Resources, income: real): (r: Resources)
    requires Money in res
    ensures r.Keys == res.Keys
    ensures forall k :: k in res ==> r[k].rate == res[k].rate
    ensures forall k :: k in res && k != Money ==> r[k].current == res[k].current + res[k].rate
    ensures r[Money].current == res[Money].current + res[Money].rate + income
  {
    var grown := map k | k in res :: res[k].(current := res[k].current + res[k].rate);
    grown[Money := grown[Money].(current := grown[Money].current + income)]
  }

  lemma PercentCutOfFiveHundred()
    ensures Impacted(500.0, Percent(-20.0)) == 400.0
  {
  }

  lemma AdditiveCutOfFiveHundred()
    ensures Impacted(500.0, Add(-50.0)) == 450.0
  {
  }

  /** An impact type outside the table leaves every resource untouched. */
  lemma UnmappedImpactIsNoOp(res: Resources, impactType: string, impact: Impact)
    requires HasStandard(res)
    requires impactType !in {"an electricity supply reduction", "an income reduction", "a water supply reduction"}
    ensures ApplyImpact(res, impactType, impact) == res
  {
  }
}
