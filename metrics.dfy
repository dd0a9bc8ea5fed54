/**
 * The four city metrics: the per-zone effect table of `update_metrics`,
 * the clamp to [0, 100], the thresholds of `check_metrics` and the
 * starting values of `fetch_metrics`.
 */
module MetricsBoard {
  import opened Wrappers
  import opened Zones

  datatype MetricName = EmploymentRate | CrimeRate | HappinessIndex | Health

  /** The metrics dictionary; its keys are always exactly the four metric names. */
  datatype Metrics = Metrics(employment: int, crime: int, happiness: int, health: int)

  function Value(m: Metrics, n: MetricName): int
  {
    match n
    case EmploymentRate => m.employment
    case CrimeRate => m.crime
    case HappinessIndex => m.happiness
    case Health => m.health
  }

  /** The order in which the dictionary iterates its keys. */
  const MetricOrder: seq<MetricName> := [EmploymentRate, CrimeRate, HappinessIndex, Health]

  ghost predicate Bounded(m: Metrics)
  {
    forall n :: 0 <= Value(m, n) <= 100
  }

  /** `min(max(v, 0), 100)`. */
  function Clamp(v: int): (c: int)
    ensures 0 <= c <= 100
    ensures 0 <= v <= 100 ==> c == v
    ensures v < 0 ==> c == 0
    ensures v > 100 ==> c == 100
  {
    if v < 0 then 0 else if v > 100 then 100 else v
  }

  /** `fetch_metrics`: the values every game starts from. */
  function FetchMetrics(): (m: Metrics)
    ensures Bounded(m)
    ensures CheckMetrics(m)
    ensures m.crime == 5
  {
    Metrics(70, 5, 75, 80)
  }

  /**
   * The effect table as a reference definition: how far one zone of each
   * type moves each metric before clamping.
   */
  function Delta(z: Zone, n: MetricName): (d: int)
    ensures n == CrimeRate ==> d == 0
    ensures -5 <= d <= 5
  {
    match (z, n)
    case (Residential, EmploymentRate) => -5
    case (Commercial, EmploymentRate) => 2
    case (Commercial, HappinessIndex) => -1
    case (Industrial, HappinessIndex) => -1
    case (Industrial, Health) => -1
    case (School, EmploymentRate) => 2
    case (School, HappinessIndex) => 1
    case (Hospital, Health) => 5
    case _ => 0
  }

  /**
   * The metric part of `update_metrics(metrics, player_resources, zone_type,
   * amount)`: the branch for the zone type, then every metric clamped.
   */
  function ZoneEffect(m: Metrics, z: Zone, amount: int): (r: Metrics)
    ensures Bounded(r)
  {
    var changed :=
      match z
      case Residential => m.(employment := m.employment - amount * 5)
      case Commercial => m.(employment := m.employment + amount * 2, happiness := m.happiness - amount * 1)
      case Industrial => m.(happiness := m.happiness - amount * 1, health := m.health - amount * 1)
      case School => m.(employment := m.employment + amount * 2, happiness := m.happiness + amount * 1)
      case Hospital => m.(health := m.health + amount * 5);
    Metrics(Clamp(changed.employment), Clamp(changed.crime), Clamp(changed.happiness), Clamp(changed.health))
  }

  /**
   * The money part of `update_metrics`: a Commercial zone adds 5% of the
   * current Money; no other zone touches money.
   */
  function MoneyAfterBuild(money: real, z: Zone): (r: real)
    ensures z == Commercial ==> r == money * 1.05
    ensures z != Commercial ==> r == money
  {
    if z == Commercial then money + money * 0.05 else money
  }

  /** `min_values` of `check_metrics`: a ceiling for Crime Rate, a floor for the others. */
  function Threshold(n: MetricName): int
  {
    if n == CrimeRate then 30 else 50
  }

  predicate Breached(m: Metrics, n: MetricName)
  {
    if n == CrimeRate then Value(m, n) > Threshold(n) else Value(m, n) < Threshold(n)
  }

  /** The loop of `check_metrics`: the first metric, in iteration order, that is past its threshold. */
  function FirstBreach(m: Metrics, names: seq<MetricName>): (r: Option<MetricName>)
    ensures r.None? <==> forall i :: 0 <= i < |names| ==> !Breached(m, names[i])
    ensures r.Some? ==>
      exists i :: 0 <= i < |names| && names[i] == r.value && Breached(m, r.value)
        && forall j :: 0 <= j < i ==> !Breached(m, names[j])
  {
    if names == [] then None
    else if Breached(m, names[0]) then Some(names[0])
    else
      assert forall i :: 1 <= i < |names| ==> names[i] == names[1..][i - 1];
      FirstBreach(m, names[1..])
  }

  /** `check_metrics`: true when no metric is past its threshold. */
  function CheckMetrics(m: Metrics): (ok: bool)
    ensures ok <==> m.crime <= 30 && m.employment >= 50 && m.happiness >= 50 && m.health >= 50
  {
    var r := FirstBreach(m, MetricOrder);
    assert MetricOrder[0] == EmploymentRate && MetricOrder[1] == CrimeRate;
    assert MetricOrder[2] == HappinessIndex && MetricOrder[3] == Health;
    r.None?
  }

  /** `update_metrics` agrees with the effect table on every metric. */
  lemma ZoneEffectMatchesTable(m: Metrics, z: Zone, amount: int, n: MetricName)
    ensures Value(ZoneEffect(m, z, amount), n) == Clamp(Value(m, n) + Delta(z, n) * amount)
  {
    match z
    case Residential =>
    case Commercial =>
    case Industrial =>
    case School =>
    case Hospital =>
  }

  /** On bounded metrics a zone moves each metric only in the direction of its table entry. */
  lemma ZoneEffectDirection(m: Metrics, z: Zone, amount: nat, n: MetricName)
    requires Bounded(m)
    ensures Delta(z, n) >= 0 ==> Value(ZoneEffect(m, z, amount), n) >= Value(m, n)
    ensures Delta(z, n) <= 0 ==> Value(ZoneEffect(m, z, amount), n) <= Value(m, n)
    ensures Delta(z, n) == 0 ==> Value(ZoneEffect(m, z, amount), n) == Value(m, n)
  {
    ZoneEffectMatchesTable(m, z, amount, n);
    var d := Delta(z, n) * amount;
    assert Delta(z, n) >= 0 ==> d >= 0;
    assert Delta(z, n) <= 0 ==> d <= 0;
    assert Delta(z, n) == 0 ==> d == 0;
  }

  /** Crime Rate has no entry in the table: only the clamp can change it. */
  lemma CrimeOnlyClamped(m: Metrics, z: Zone, amount: int)
    ensures ZoneEffect(m, z, amount).crime == Clamp(m.crime)
    ensures 0 <= m.crime <= 100 ==> ZoneEffect(m, z, amount).crime == m.crime
  {
    ZoneEffectMatchesTable(m, z, amount, CrimeRate);
  }

  /** One Residential zone from Employment Rate 70 gives exactly 65. */
  lemma ResidentialFromSeventy(m: Metrics)
    requires m.employment == 70
    ensures ZoneEffect(m, Residential, 1).employment == 65
  {
  }

  /** A thousand Residential zones at once clamp Employment Rate to 0 rather than below it. */
  lemma ThousandResidentialClamp(m: Metrics)
    requires Bounded(m)
    ensures ZoneEffect(m, Residential, 1000).employment == 0
  {
    assert 0 <= Value(m, EmploymentRate) <= 100;
  }

  /** The thresholds are inclusive: Crime Rate 30 and the others at 50 still pass. */
  lemma ThresholdsInclusive()
    ensures CheckMetrics(Metrics(50, 30, 50, 50))
    ensures !CheckMetrics(Metrics(100, 31, 100, 100))
    ensures !CheckMetrics(Metrics(49, 0, 100, 100))
  {
  }
}
