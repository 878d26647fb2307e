/** The read-only reports of the balancer: the current balance with its
    storage summary, and the hourly forecast rows. */
module Reports {
  import opened Storage
  import opened Quantities
  import opened Participants

  /** The dict returned by `get_current_balance`. */
  datatype BalanceReport = BalanceReport(
    timestamp: int,
    production: real,
    consumption: real,
    balance: real,
    storageCapacity: real,    // the summed room left, not the summed capacity
    storageLevel: real,
    storagePercentage: real)

  /** One row of the `forecast_balance` table. */
  datatype ForecastRow = ForecastRow(timestamp: int, production: real, consumption: real, balance: real)

  function TotalProduction(ps: seq<Producer>): real
    decreases |ps|
  {
    if ps == [] then 0.0 else ps[0].currentProduction + TotalProduction(ps[1..])
  }

  function TotalDemand(cs: seq<ConsumerView>): real
    decreases |cs|
  {
    if cs == [] then 0.0 else cs[0].currentDemand + TotalDemand(cs[1..])
  }

  function TotalAvailable(us: seq<UnitView>): real
    decreases |us|
  {
    if us == [] then 0.0 else us[0].AvailableCapacity() + TotalAvailable(us[1..])
  }

  function TotalLevel(us: seq<UnitView>): real
    decreases |us|
  {
    if us == [] then 0.0 else us[0].level + TotalLevel(us[1..])
  }

  function TotalCapacity(us: seq<UnitView>): real
    decreases |us|
  {
    if us == [] then 0.0 else us[0].capacity + TotalCapacity(us[1..])
  }

  /** The summed forecast production at `t`. */
  function ForecastProduction(ps: seq<Producer>, t: int): real
    decreases |ps|
  {
    if ps == [] then 0.0 else ps[0].GetForecast(t) + ForecastProduction(ps[1..], t)
  }

  /** The summed forecast demand at `t`. */
  function ForecastDemand(cs: seq<Consumer>, t: int): real
    decreases |cs|
  {
    if cs == [] then 0.0 else cs[0].GetForecast(t) + ForecastDemand(cs[1..], t)
  }

  /** The room left and the stored energy add up to the installed capacity,
      and both are non-negative when every unit is within its bounds. */
  lemma {:induction false} StorageTotals(us: seq<UnitView>)
    ensures TotalAvailable(us) + TotalLevel(us) == TotalCapacity(us)
    ensures (forall i :: 0 <= i < |us| ==> us[i].WithinBounds()) ==>
              0.0 <= TotalAvailable(us) && 0.0 <= TotalLevel(us)
    decreases |us|
  {
    if us != [] {
      StorageTotals(us[1..]);
      assert forall i :: 0 <= i < |us[1..]| ==> us[1..][i] == us[i + 1];
    }
  }

  /** `get_current_balance`, with the clock reading passed in as `now`. The
      percentage is the stored energy over the summed room left, and 0 when
      no room is left. */
  function BalanceReportOf(now: int, ps: seq<Producer>, cs: seq<ConsumerView>, us: seq<UnitView>): (r: BalanceReport)
    ensures r.timestamp == now
    ensures r.production == TotalProduction(ps) && r.consumption == TotalDemand(cs)
    ensures r.balance == TotalProduction(ps) - TotalDemand(cs)
    ensures r.storageLevel == TotalLevel(us)
    ensures r.storageCapacity + r.storageLevel == TotalCapacity(us)
    ensures r.storageCapacity > 0.0 ==> r.storagePercentage * r.storageCapacity == r.storageLevel * 100.0
    ensures r.storageCapacity <= 0.0 ==> r.storagePercentage == 0.0
    ensures (forall i :: 0 <= i < |us| ==> us[i].WithinBounds()) ==> 0.0 <= r.storageCapacity && 0.0 <= r.storageLevel
  {
    StorageTotals(us);
    var production := TotalProduction(ps);
    var consumption := TotalDemand(cs);
    var capacity := TotalAvailable(us);
    var level := TotalLevel(us);
    BalanceReport(now, production, consumption, production - consumption, capacity, level,
                  if capacity > 0.0 then level / capacity * 100.0 else 0.0)
  }

  /** One forecast row: the summed forecasts at `t` and their difference. */
  function ForecastRowAt(t: int, ps: seq<Producer>, cs: seq<Consumer>): (r: ForecastRow)
    ensures r.timestamp == t && r.balance == r.production - r.consumption
    ensures r.production == ForecastProduction(ps, t) && r.consumption == ForecastDemand(cs, t)
  {
    var production := ForecastProduction(ps, t);
    var consumption := ForecastDemand(cs, t);
    ForecastRow(t, production, consumption, production - consumption)
  }

  /** The row builder of the forecast loop over producers `ps` and
      consumers `cs`. */
  function RowsOf(ps: seq<Producer>, cs: seq<Consumer>): int -> ForecastRow {
    t => ForecastRowAt(t, ps, cs)
  }

  /** The rows for `n` successive hours from `start`, each built by `row`;
      none when `n` is not positive. */
  function HourlyRows(start: int, n: int, row: int -> ForecastRow): seq<ForecastRow>
    decreases n
  {
    if n <= 0 then [] else [row(start)] + HourlyRows(start + HOUR, n - 1, row)
  }

  /** `max(n, 0)` rows, the `i`-th for the hour `start + i * HOUR`. */
  lemma {:induction false} HourlyRowsAt(start: int, n: int, row: int -> ForecastRow)
    ensures |HourlyRows(start, n, row)| == if n > 0 then n else 0
    ensures forall i :: 0 <= i < |HourlyRows(start, n, row)| ==> HourlyRows(start, n, row)[i] == row(start + i * HOUR)
    decreases n
  {
    if n > 0 {
      HourlyRowsAt(start + HOUR, n - 1, row);
      var rest := HourlyRows(start + HOUR, n - 1, row);
      assert HourlyRows(start, n, row) == [row(start)] + rest;
      forall i | 1 <= i < n ensures HourlyRows(start, n, row)[i] == row(start + i * HOUR) {
        assert rest[i - 1] == row(start + HOUR + (i - 1) * HOUR);
        assert start + HOUR + (i - 1) * HOUR == start + i * HOUR;
      }
    }
  }

  /** The forecast table has `max(n, 0)` rows and, when it has any, its
      first row is for the hour starting at `start`. */
  lemma ForecastStart(start: int, n: int, ps: seq<Producer>, cs: seq<Consumer>)
    ensures |HourlyRows(start, n, RowsOf(ps, cs))| == if n > 0 then n else 0
    ensures n > 0 ==> HourlyRows(start, n, RowsOf(ps, cs))[0].timestamp == start
  {
    HourlyRowsAt(start, n, RowsOf(ps, cs));
  }

  /** Row `i` of the forecast table is for the hour starting at
      `start + i * HOUR` and holds the summed production and demand
      forecasts at that time and the balance between them. */
  lemma {:induction false} ForecastRows(start: int, n: int, ps: seq<Producer>, cs: seq<Consumer>)
    ensures |HourlyRows(start, n, RowsOf(ps, cs))| == if n > 0 then n else 0
    ensures forall i :: 0 <= i < |HourlyRows(start, n, RowsOf(ps, cs))| ==>
              var r := HourlyRows(start, n, RowsOf(ps, cs))[i];
              && r.timestamp == start + i * HOUR
              && r.production == ForecastProduction(ps, r.timestamp)
              && r.consumption == ForecastDemand(cs, r.timestamp)
              && r.balance == r.production - r.consumption
  {
    HourlyRowsAt(start, n, RowsOf(ps, cs));
  }

  /** The loop of `forecast_balance`: one row per hour from `start`, `n`
      times, each built by `row`. */
  method HourlyTable(start: int, n: int, row: int -> ForecastRow) returns (rows: seq<ForecastRow>)
    ensures rows == HourlyRows(start, n, row)
  {
    rows := [];
    var ts := start;
    var i := 0;
    while i < n
      invariant 0 <= i <= (if n > 0 then n else 0)
      invariant rows + HourlyRows(ts, n - i, row) == HourlyRows(start, n, row)
    {
      rows := rows + [row(ts)];
      ts := ts + HOUR;
      i := i + 1;
    }
  }
}
