# Energy balancing for a microgrid, in Dafny

This project models the decision engine of NeuroGrid's energy balancer
(`src/neurogrid/energy_balancing.py`) and proves properties of it. A
balancer keeps three registries for one microgrid: storage units, producers
and consumers. On request it:

- reports the current production, demand and storage state;
- builds an hourly forecast table;
- splits a forecast surplus or deficit greedily over the storage units in
  priority order;
- ranks consumers for demand response;
- runs a balancing step that applies the storage decisions in place, sheds
  flexible load against the current deficit and plans exchanges with the
  connected microgrids.

How the model is laid out:

- `quantities.dfy`: power and energy are `real` (kW, kWh). Timestamps are
  integer seconds, one `HOUR` apart. `Min` is Python's `min`: on a tie it
  keeps the first argument.
- `sequences.dfy`: distinctness, the subsequence relation and a stable
  insertion sort on `(int, real)` keys. The sort stands for Python's
  `sorted` with a tuple key.
- `storage.dfy`: the `EnergyStorage` class, whose level `charge` and
  `discharge` change in place. Its `UnitView` snapshot carries the derived
  quantities: available capacity, state of charge, `can_charge` and
  `can_discharge`.
- `forecasts.dfy` and `participants.dfy`: producers (values) and consumers
  (a class, since load shedding lowers `current_demand` in place). They share
  the forecast lookup: the exact key, else 0 for an empty table, else the
  first entry nearest in time.
- `allocation.dfy`: `optimize_storage_allocation`, as a specification
  function (`StorageDecisions`) and as the loop that computes it.
- `loads.dfy`: `prioritize_loads` and the load-shedding walk.
- `exchange.dfy`: the exchange with the connected microgrids.
- `reports.dfy`: `get_current_balance` and the rows of `forecast_balance`.
- `balancer.dfy`: the `EnergyBalancer` class.
  - A Python dict becomes an id sequence in insertion order next to a map.
  - The class invariant `Valid` says every registry is keyed by its
    entities' ids.
  - The methods for adding entities, and the storage and load steps of
    `execute_balancing_strategy`, change state under `modifies` clauses.
  - `ForecastBalance`, `OptimizeStorageAllocation`, `PlanStorage`,
    `Optimize`, `HourlyTable` and `ExchangeWithPeers` are methods that
    change nothing.
  - Every loop is proved against a specification function.

What is proved:

- **Storage allocation:** it charges only on a surplus and discharges only
  on a deficit. Each decision is positive and within one distinct unit's
  room (or level) and rate. The decisions follow the priority order, and
  together they never exceed the imbalance. The total is exactly the smaller
  of the imbalance and what the units can take (or give) at most.
- **Load shedding:** it happens only on a deficit. It follows the
  prioritised order, and each reduction is within one consumer's flexible
  demand. No consumer is named twice. The total is exactly the smaller of
  the deficit and the summed flexible demand.
- **Prioritisation:** it keeps exactly the consumers with flexible demand,
  least critical first, with ties in registration order.
- **Grid exchange:** a balance within [-10, 20] kW exchanges nothing. On
  export the total is `min(10 * peers, balance - 20)`; on import it is
  `min(10 * peers, |balance| - 10)`.
- **The balancing step:** each storage unit's level ends up moved by exactly
  its decision, and each consumer's demand lowered by exactly its reduction.
  Units within their bounds stay within them. No demand drops by more than
  its flexible part, and a non-negative demand with flexibility in [0, 1]
  stays non-negative.

The model follows the code in these places:

- A horizon of 0 falls back to the default, as `horizon_hours or
  self.forecast_horizon` does.
- Load shedding and the grid exchange are driven by the balance measured
  before the storage step, not by the balance left after it.
- The reported storage percentage is the stored energy over the summed
  room left, not over the summed capacity.

## Model

| member | source | states |
|---|---|---|
| `Storage.UnitView.AvailableCapacity` | src/neurogrid/energy_balancing.py:56-59 | the room left plus the level is the capacity; within [0, capacity] for a unit within its bounds |
| `Storage.UnitView.StateOfCharge` | src/neurogrid/energy_balancing.py:61-64 | the level as a percentage of the capacity; within [0, 100] for a unit within its bounds |
| `Storage.UnitView.CanCharge` | src/neurogrid/energy_balancing.py:66-79 | true exactly when the duration is positive, the amount is at most rate × duration and at most the room left (a non-positive duration is an infinite rate) |
| `Storage.UnitView.CanDischarge` | src/neurogrid/energy_balancing.py:81-94 | true exactly when the duration is positive, the amount is at most discharge rate × duration and at most the level |
| `Storage.EnergyStorage.constructor` | src/neurogrid/energy_balancing.py:42-53 | the new unit holds exactly the given attributes |
| `Storage.EnergyStorage.Charge` | src/neurogrid/energy_balancing.py:96-110 | adds and returns `min(amount, room left)`; a unit within its bounds stays within them, and a non-negative request adds between 0 and the amount |
| `Storage.EnergyStorage.Discharge` | src/neurogrid/energy_balancing.py:112-126 | removes and returns `min(amount, level)`; a unit within its bounds stays within them, and a non-negative request removes between 0 and the amount |
| `Forecasts.HasTimeIff` | src/neurogrid/energy_balancing.py:143 | the key test holds exactly when some entry has the requested time |
| `Forecasts.ValueAtFirst` | src/neurogrid/energy_balancing.py:144 | the looked-up value is that of the first entry with the key |
| `Forecasts.NearestIndexMinimal` | src/neurogrid/energy_balancing.py:147-152 | the closest-timestamp scan picks an entry no farther from the time than any other and strictly closer than every earlier one, as `min` with a key does |
| `Forecasts.ForecastExact` | src/neurogrid/energy_balancing.py:141-144 | in a table with distinct keys a present key yields its own value |
| `Forecasts.ForecastAtSpec` | src/neurogrid/energy_balancing.py:141-152 | `get_forecast`: 0 for an empty table; the key's value when present; otherwise the value of an entry nearest in time, the first such entry |
| `Forecasts.ExactIsNearest` | src/neurogrid/energy_balancing.py:143-152 | with distinct keys the exact-key branch returns what the nearest-entry scan would |
| `Participants.Consumer.constructor` | src/neurogrid/energy_balancing.py:155-165 | the new consumer holds exactly the given attributes |
| `Sequences.SortByCorrect` | src/neurogrid/energy_balancing.py:325-328 | `sorted` returns a permutation of its input, of the same length, ordered by the key |
| `Sequences.SortByStable` | src/neurogrid/energy_balancing.py:354-357 | elements with equal keys keep their relative order, as Python's sort does |
| `Sequences.SortBySum` | src/neurogrid/energy_balancing.py:325-328 | sorting does not change a sum over the elements |
| `Sequences.SortByDistinctBy` | src/neurogrid/energy_balancing.py:392-395 | sorting keeps a projection such as the id free of repetitions |
| `Allocation.CandidatesSubsequence` | src/neurogrid/energy_balancing.py:326 | the candidates keep registration order; a unit is a candidate exactly when it is registered and has room left (charge) or a positive level (discharge), both directions |
| `Allocation.CandidatesHeadroom` | src/neurogrid/energy_balancing.py:326 | leaving out the units with no room (level) loses nothing of what the units can take (give) |
| `Allocation.SortedCandidates` | src/neurogrid/energy_balancing.py:325-328 | the sorted candidates are a permutation of the candidates, ordered by `(priority, -state_of_charge)`, ties in registration order, all with room (resp. charge) |
| `Allocation.SortedCandidatesDistinct` | src/neurogrid/energy_balancing.py:355-357 | units with distinct ids give sorted candidates with distinct ids |
| `Allocation.AllocateFits` | src/neurogrid/energy_balancing.py:332-349 | every decision is positive and within the room (level) and the rate of a unit it names |
| `Allocation.AllocateOrder` | src/neurogrid/energy_balancing.py:361-378 | the decisions name units in the sorted order, each unit at most once |
| `Allocation.AllocateTotal` | src/neurogrid/energy_balancing.py:330-349 | the decided amounts add up to between 0 and the amount to allocate |
| `Allocation.AllocateAmount` | src/neurogrid/energy_balancing.py:330-349 | the greedy walk allocates exactly the smaller of the amount and the summed `min(room or level, rate)` of the units |
| `Allocation.StorageDecisionsTotal` | src/neurogrid/energy_balancing.py:303-382 | a surplus is charged up to exactly `min(surplus, what all units can take)`; a deficit is discharged up to exactly `min(deficit, what all units can give)` |
| `Allocation.StorageDecisionsBounds` | src/neurogrid/energy_balancing.py:303-382 | surplus: only charges, within the surplus; deficit: only discharges, within the deficit; balance 0: nothing; every decision fits one unit; decisions in key order; distinct units give distinct decisions |
| `Allocation.AllocationExample` | src/neurogrid/energy_balancing.py:322-349 | a 40 kW surplus goes first to the priority-1 unit up to its 20 kW rate, then 20 kW to the priority-2 unit |
| `Allocation.Optimize` | src/neurogrid/energy_balancing.py:318-380 | computes exactly the specified decisions for a balance |
| `Allocation.AllocateInOrder` | src/neurogrid/energy_balancing.py:359-378 | the loop with its running remainder and early exit computes the specified greedy allocation |
| `Loads.RecommendSound` | src/neurogrid/energy_balancing.py:399-408 | every recommendation is that of a consumer with positive flexible demand |
| `Loads.RecommendComplete` | src/neurogrid/energy_balancing.py:400-403 | every consumer with positive flexible demand is recommended |
| `Loads.RecommendOrder` | src/neurogrid/energy_balancing.py:397-409 | recommendations keep the order of the consumers they come from |
| `Loads.RecommendPriority` | src/neurogrid/energy_balancing.py:402-408 | consumers ordered by descending priority give recommendations ordered the same way |
| `Loads.PrioritizeLoadsMembers` | src/neurogrid/energy_balancing.py:384-412 | `prioritize_loads` returns exactly the consumers with positive flexible demand |
| `Loads.PrioritizeLoadsOrder` | src/neurogrid/energy_balancing.py:391-395 | least critical first, then most flexible first, ties in registration order, the recommendations following that order |
| `Loads.PrioritizeLoadsDistinct` | src/neurogrid/energy_balancing.py:403 | consumers with distinct ids give recommendations with distinct ids |
| `Loads.ShedWithinRecommendations` | src/neurogrid/energy_balancing.py:467-481 | every reduction is positive and at most the flexible demand of the recommendation it names |
| `Loads.ShedInOrder` | src/neurogrid/energy_balancing.py:467-468 | reductions follow the recommendations' order, each consumer at most once |
| `Loads.ShedTotal` | src/neurogrid/energy_balancing.py:465-481 | the reductions add up to between 0 and the deficit |
| `Loads.ShedAmount` | src/neurogrid/energy_balancing.py:465-481 | the walk sheds exactly the smaller of the deficit and the recommendations' summed positive flexible demand |
| `Loads.RecommendLoad` | src/neurogrid/energy_balancing.py:399-408 | the recommendations offer together exactly the consumers' summed positive flexible demand |
| `Loads.SheddingAmount` | src/neurogrid/energy_balancing.py:463-484 | on a deficit the total shed is exactly `min(deficit, summed flexible demand)`: the deficit is covered whenever the flexible load suffices |
| `Loads.SheddingExample` | src/neurogrid/energy_balancing.py:463-484 | a 12 kW deficit sheds 10 kW of the leisure load first and the remaining 2 kW from the medical load |
| `Loads.FitsRecommendation` | src/neurogrid/energy_balancing.py:471-484 | a reduction within a consumer's recommendation is within that consumer's flexible demand |
| `Loads.SheddingTotal` | src/neurogrid/energy_balancing.py:463-481 | nothing is shed unless the balance is negative; the total is between 0 and the deficit; consumers are visited in prioritised order |
| `Loads.SheddingFits` | src/neurogrid/energy_balancing.py:470-484 | every reduction fits one consumer: positive, within its flexible demand, leaving a non-negative demand for fractional flexibility |
| `Loads.SheddingDistinct` | src/neurogrid/energy_balancing.py:467 | consumers with distinct ids are each shed at most once |
| `Exchange.ExchangeShape` | src/neurogrid/energy_balancing.py:487-505 | at most one exchange per peer, in peer order, each of more than 0 and at most 10 kW |
| `Exchange.ExchangeBalanced` | src/neurogrid/energy_balancing.py:490-498 | a balance within [-10, 20] kW exchanges nothing |
| `Exchange.ExchangeExports` | src/neurogrid/energy_balancing.py:490-497 | above 20 kW: only exports, totalling `min(10 * peers, balance - 20)`, never taking the balance below 20 kW |
| `Exchange.ExchangeImports` | src/neurogrid/energy_balancing.py:498-505 | below -10 kW: only imports, totalling `min(10 * peers, abs(balance) - 10)`, never taking the balance above -10 kW |
| `Exchange.ExchangeWithPeers` | src/neurogrid/energy_balancing.py:487-505 | the loop with its running balance computes the specified exchange plan |
| `Reports.StorageTotals` | src/neurogrid/energy_balancing.py:250-251 | the summed room left plus the summed level is the summed capacity; both sums are non-negative for units within their bounds |
| `Reports.BalanceReportOf` | src/neurogrid/energy_balancing.py:239-261 | balance is production minus demand; the percentage is level × 100 over the summed room left, 0 when none is left |
| `Reports.HourlyRowsAt` | src/neurogrid/energy_balancing.py:274-278 | `max(n, 0)` rows, the i-th for the hour `start + i × 3600` |
| `Reports.ForecastRows` | src/neurogrid/energy_balancing.py:274-298 | the forecast table has `max(n, 0)` rows; row i is for `start + i × 3600` and carries the summed production and demand forecasts at that time and their difference |
| `Reports.ForecastStart` | src/neurogrid/energy_balancing.py:430-431 | the forecast table has `max(n, 0)` rows, and its first row, when there is one, is for the start time |
| `Reports.HourlyTable` | src/neurogrid/energy_balancing.py:274-298 | the row loop computes the specified hourly rows |
| `Balancer.StorageOutcome` | src/neurogrid/energy_balancing.py:449-453 | with one decision per unit, a decided unit's level moves by exactly its signed decision and any other unit's level does not move |
| `Balancer.SheddingOutcome` | src/neurogrid/energy_balancing.py:474-484 | with one action per consumer, a shed consumer's demand drops by exactly its reduction and any other's does not change |
| `Balancer.DecisionsFitRegistry` | src/neurogrid/energy_balancing.py:447-453 | decisions over a registry name registered units, each once, each fitting the unit it names |
| `Balancer.SheddingReduction` | src/neurogrid/energy_balancing.py:474-484 | with distinct consumers, a consumer's total reduction is between 0 and its flexible demand, and leaves a non-negative demand non-negative when its flexibility is in [0, 1] |
| `Balancer.RegistryReduction` | src/neurogrid/energy_balancing.py:463-484 | the same bounds for a consumer of a registry keyed by consumer id |
| `Balancer.RegistryReductions` | src/neurogrid/energy_balancing.py:463-484 | the same bounds for every registered consumer at once |
| `Balancer.RecommendationsRegistered` | src/neurogrid/energy_balancing.py:464-467 | every recommendation over a registry names a registered consumer, so `self.consumers[consumer_id]` never misses |
| `Balancer.RecommendationsInRegistry` | src/neurogrid/energy_balancing.py:464-467 | recommendations over a registry name registered consumers, each once |
| `Balancer.ApplyDecision` | src/neurogrid/energy_balancing.py:450-453 | `charge` or `discharge` of the named unit takes exactly the decided amount; every other unit is untouched |
| `Balancer.ApplyDecisions` | src/neurogrid/energy_balancing.py:449-460 | the reported amounts are the decided ones; each unit's level moves by the sum of its decisions; units within bounds stay within bounds |
| `Balancer.ShedLoads` | src/neurogrid/energy_balancing.py:463-484 | the actions are the specified shedding of the prioritised loads against the deficit, and each consumer's demand drops by its reductions |
| `Balancer.ReduceDemand` | src/neurogrid/energy_balancing.py:484 | the shed consumer's demand drops by the reduction; every other consumer's demand is unchanged |
| `Balancer.ShedConsumers` | src/neurogrid/energy_balancing.py:465-484 | the loop with its running deficit and early exit computes the specified shedding and lowers each demand in place |
| `Balancer.EnergyBalancer.constructor` | src/neurogrid/energy_balancing.py:189-219 | empty registries, the given horizon, and no peers when none are given |
| `Balancer.EnergyBalancer.AddStorage` | src/neurogrid/energy_balancing.py:221-225 | the unit is registered under its id: a new id is appended in order, a known id is replaced in place; nothing else changes |
| `Balancer.EnergyBalancer.AddProducer` | src/neurogrid/energy_balancing.py:227-231 | as `add_storage`, for producers |
| `Balancer.EnergyBalancer.AddConsumer` | src/neurogrid/energy_balancing.py:233-237 | as `add_storage`, for consumers |
| `Balancer.EnergyBalancer.GetCurrentBalance` | src/neurogrid/energy_balancing.py:239-261 | the report over the registered entities in registration order; storage sums non-negative when every unit is within bounds |
| `Balancer.EnergyBalancer.ForecastBalance` | src/neurogrid/energy_balancing.py:263-301 | with no horizon or 0, `max(forecast_horizon, 0)` rows, else `max(horizon, 0)` rows; row i is for `now + i × 3600` and carries the summed forecasts of the registered producers and consumers at that time and their difference |
| `Balancer.EnergyBalancer.OptimizeStorageAllocation` | src/neurogrid/energy_balancing.py:303-321 | the specified greedy split of the net forecast at the timestamp over the units as they stand |
| `Balancer.EnergyBalancer.PlanStorage` | src/neurogrid/energy_balancing.py:429-447 | with a positive horizon, the allocation for the forecast's first hour, which is `now`; no decisions otherwise |
| `Balancer.EnergyBalancer.ApplyPlan` | src/neurogrid/energy_balancing.py:449-460 | decisions fitting the registered units are applied: each unit's level moves by its decisions, units within bounds stay within them, consumers are untouched |
| `Balancer.EnergyBalancer.StorageStep` | src/neurogrid/energy_balancing.py:429-460 | with a non-empty forecast, the decisions for its first hour are applied to the units; only decided units change, by their decisions; consumers are untouched |
| `Balancer.EnergyBalancer.LoadStep` | src/neurogrid/energy_balancing.py:462-484 | on a negative balance, load is shed in place as specified; each demand drops by at most its flexible load, a non-negative demand with flexibility in [0, 1] stays non-negative; storage is untouched |
| `Balancer.EnergyBalancer.ExecuteBalancingStrategy` | src/neurogrid/energy_balancing.py:414-512 | the report holds the balance before any change, the applied storage decisions, the shedding for that balance and the exchange plan for that balance; levels and demands move by exactly what is reported; a non-negative demand with flexibility in [0, 1] stays non-negative |

## Left out

- Logging, and the demonstration under `if __name__ == "__main__"`: they print and decide nothing.
- `pd.Timestamp.now()`: the clock is the parameter `now`. One `now` serves every clock reading of one `execute_balancing_strategy` call, including the report's timestamp and the forecast's start.
- Timestamp strings: forecast keys are `str(timestamp)` in the source and integer seconds here. A table is its entries in insertion order. The model takes every key to be canonical, i.e. `str(pd.Timestamp(key))` for its own time. In the source a non-canonical key (`"2024-01-01T00:00"`, say) never matches the exact test at line 143, and when it is nearest in time the lookup at line 152 with the canonical string raises KeyError; neither is modelled.
- The pandas `DataFrame` of `forecast_balance`: it is a sequence of rows here.
- Floating point: quantities are exact reals, so rounding, NaN and infinities are not modelled. The `float('inf')` rate of a non-positive duration becomes the explicit "duration > 0" test.
- Attributes the core stores but never reads: efficiency, location, temperature, operational state, the maintenance schedule, the optimisation interval, price signals and carbon intensity.
- Storage.UnitView.StateOfCharge: requires a non-zero capacity. In the source this case raises ZeroDivisionError, as does the log line of `charge` and `discharge`. The allocation sort key gives such a unit the key 0 instead: it can only be a candidate when its level is outside its bounds.
- Balancer.EnergyBalancer.ForecastBalance: a negative horizon gives no rows here, where `pd.date_range` raises.
- Balancer.EnergyBalancer.ExecuteBalancingStrategy: it keeps the units within their bounds only when they start within them. The source does not enforce `0 <= current_level <= capacity`, and neither does the model.
- Forecasts.ForecastAtSpec: the exact key's value is stated for tables with distinct times. A Python dict has distinct key strings, and distinct strings are distinct times only under the canonical-key assumption above; for such tables the property is stated.
- Balancer.EnergyBalancer.AddStorage: requires the registry invariant `Valid`. The constructor establishes it and every method keeps it.
- Balancer.EnergyBalancer.ExecuteBalancingStrategy: requires `forecast_horizon >= 0`. In the source a negative horizon makes `pd.date_range` in `forecast_balance` raise, so every call fails before anything changes; the model leaves that error path out.
