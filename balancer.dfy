/** `EnergyBalancer`: the registry of one microgrid's storage units,
    producers and consumers, and the balancing step that applies storage
    decisions, sheds load and exchanges with the peer microgrids. */
module Balancer {
  import opened Quantities
  import opened Sequences
  import opened Storage
  import opened Participants
  import opened Allocation
  import opened Loads
  import opened Exchange
  import opened Reports

  datatype Option<T> = None | Some(value: T)

  /** The dict returned by `execute_balancing_strategy`. The storage actions
      carry the amounts the units actually took or gave. */
  datatype ActionReport = ActionReport(
    timestamp: int,
    currentBalance: BalanceReport,
    storageActions: seq<Decision>,
    loadManagement: seq<LoadAction>,
    gridExchange: seq<GridExchange>)

  /** A dict's insertion order: the keys, each once, in order. */
  predicate Registry<V>(ids: seq<string>, m: map<string, V>) {
    Distinct(ids) && (forall i :: 0 <= i < |ids| ==> ids[i] in m) && (forall k :: k in m ==> k in ids)
  }

  /** The dict's values in insertion order. */
  function Lookup<V>(ids: seq<string>, m: map<string, V>): (r: seq<V>)
    requires forall i :: 0 <= i < |ids| ==> ids[i] in m
    ensures |r| == |ids| && forall i :: 0 <= i < |ids| ==> r[i] == m[ids[i]]
    decreases |ids|
  {
    if ids == [] then [] else [m[ids[0]]] + Lookup(ids[1..], m)
  }

  function StorageViews(ids: seq<string>, m: map<string, EnergyStorage>): (r: seq<UnitView>)
    requires forall i :: 0 <= i < |ids| ==> ids[i] in m
    reads m.Values
    ensures |r| == |ids| && forall i :: 0 <= i < |ids| ==> r[i] == m[ids[i]].View()
    decreases |ids|
  {
    if ids == [] then [] else [m[ids[0]].View()] + StorageViews(ids[1..], m)
  }

  function ConsumerViews(ids: seq<string>, m: map<string, Consumer>): (r: seq<ConsumerView>)
    requires forall i :: 0 <= i < |ids| ==> ids[i] in m
    reads m.Values
    ensures |r| == |ids| && forall i :: 0 <= i < |ids| ==> r[i] == m[ids[i]].View()
    decreases |ids|
  {
    if ids == [] then [] else [m[ids[0]].View()] + ConsumerViews(ids[1..], m)
  }

  /** Python's `horizon_hours or self.forecast_horizon`: a missing or zero
      horizon falls back to the default. */
  function EffectiveHorizon(h: Option<int>, default: int): (r: int)
    ensures r == default || (h.Some? && r == h.value)
    ensures r == default <== h == None || h == Some(0)
    ensures h.Some? && h.value != 0 ==> r == h.value
  {
    match h
    case None => default
    case Some(v) => if v != 0 then v else default
  }

  /** The signed change a decision makes to its unit's level. */
  function Signed(d: Decision): real {
    if d.action == Charge then d.amount else -d.amount
  }

  /** The summed change the decisions make to the level of unit `k`. */
  function LevelChange(k: string, ds: seq<Decision>): real
    decreases |ds|
  {
    if ds == [] then 0.0
    else LevelChange(k, ds[..|ds| - 1]) + (if ds[|ds| - 1].storageId == k then Signed(ds[|ds| - 1]) else 0.0)
  }

  /** The summed reduction the actions make to the demand of consumer `k`. */
  function DemandReduction(k: string, acts: seq<LoadAction>): real
    decreases |acts|
  {
    if acts == [] then 0.0
    else DemandReduction(k, acts[..|acts| - 1])
         + (if acts[|acts| - 1].consumerId == k then acts[|acts| - 1].reduction else 0.0)
  }

  lemma LevelChangeSnoc(ds: seq<Decision>, d: Decision)
    ensures forall k :: LevelChange(k, ds + [d]) == LevelChange(k, ds) + (if d.storageId == k then Signed(d) else 0.0)
  {
    assert (ds + [d])[..|ds|] == ds;
  }

  lemma DemandReductionSnoc(acts: seq<LoadAction>, a: LoadAction)
    ensures forall k :: DemandReduction(k, acts + [a])
                        == DemandReduction(k, acts) + (if a.consumerId == k then a.reduction else 0.0)
  {
    assert (acts + [a])[..|acts|] == acts;
  }

  /** A unit no decision names keeps its level. */
  lemma {:induction false} LevelChangeAbsent(k: string, ds: seq<Decision>)
    requires forall i :: 0 <= i < |ds| ==> ds[i].storageId != k
    ensures LevelChange(k, ds) == 0.0
    decreases |ds|
  {
    if ds != [] {
      LevelChangeAbsent(k, ds[..|ds| - 1]);
    }
  }

  /** With one decision per unit, a decided unit changes by exactly its
      decision. */
  lemma {:induction false} LevelChangeOnce(ds: seq<Decision>, i: int)
    requires 0 <= i < |ds|
    requires forall j :: 0 <= j < |ds| && j != i ==> ds[j].storageId != ds[i].storageId
    ensures LevelChange(ds[i].storageId, ds) == Signed(ds[i])
    decreases |ds|
  {
    var n := |ds| - 1;
    if i == n {
      LevelChangeAbsent(ds[i].storageId, ds[..n]);
    } else {
      LevelChangeOnce(ds[..n], i);
    }
  }

  /** A consumer no action names keeps its demand. */
  lemma {:induction false} DemandReductionAbsent(k: string, acts: seq<LoadAction>)
    requires forall i :: 0 <= i < |acts| ==> acts[i].consumerId != k
    ensures DemandReduction(k, acts) == 0.0
    decreases |acts|
  {
    if acts != [] {
      DemandReductionAbsent(k, acts[..|acts| - 1]);
    }
  }

  /** With one action per consumer, a shed consumer drops by exactly its
      reduction. */
  lemma {:induction false} DemandReductionOnce(acts: seq<LoadAction>, i: int)
    requires 0 <= i < |acts|
    requires forall j :: 0 <= j < |acts| && j != i ==> acts[j].consumerId != acts[i].consumerId
    ensures DemandReduction(acts[i].consumerId, acts) == acts[i].reduction
    decreases |acts|
  {
    var n := |acts| - 1;
    if i == n {
      DemandReductionAbsent(acts[i].consumerId, acts[..n]);
    } else {
      DemandReductionOnce(acts[..n], i);
    }
  }

  /** With one decision per unit (as the storage step produces), a unit
      named by a decision changes by exactly that decision, and any other
      unit keeps its level. */
  lemma {:induction false} StorageOutcome(ds: seq<Decision>, k: string)
    requires Distinct(DecisionIds(ds))
    ensures (forall i :: 0 <= i < |ds| ==> ds[i].storageId != k) ==> LevelChange(k, ds) == 0.0
    ensures forall i :: 0 <= i < |ds| && ds[i].storageId == k ==> LevelChange(k, ds) == Signed(ds[i])
  {
    if forall i :: 0 <= i < |ds| ==> ds[i].storageId != k {
      LevelChangeAbsent(k, ds);
    }
    forall i | 0 <= i < |ds| && ds[i].storageId == k ensures LevelChange(k, ds) == Signed(ds[i]) {
      forall j | 0 <= j < |ds| && j != i ensures ds[j].storageId != ds[i].storageId {
        assert DecisionIds(ds)[j] != DecisionIds(ds)[i];
      }
      LevelChangeOnce(ds, i);
    }
  }

  /** With one action per consumer (as load shedding produces), a shed
      consumer drops by exactly its reduction, and any other consumer keeps
      its demand. */
  lemma {:induction false} SheddingOutcome(acts: seq<LoadAction>, k: string)
    requires Distinct(ActionIds(acts))
    ensures (forall i :: 0 <= i < |acts| ==> acts[i].consumerId != k) ==> DemandReduction(k, acts) == 0.0
    ensures forall i :: 0 <= i < |acts| && acts[i].consumerId == k ==> DemandReduction(k, acts) == acts[i].reduction
  {
    if forall i :: 0 <= i < |acts| ==> acts[i].consumerId != k {
      DemandReductionAbsent(k, acts);
    }
    forall i | 0 <= i < |acts| && acts[i].consumerId == k ensures DemandReduction(k, acts) == acts[i].reduction {
      forall j | 0 <= j < |acts| && j != i ensures acts[j].consumerId != acts[i].consumerId {
        assert ActionIds(acts)[j] != ActionIds(acts)[i];
      }
      DemandReductionOnce(acts, i);
    }
  }

  /** Shedding over consumers with distinct ids lowers a consumer's demand by
      at least nothing and at most its flexible demand, so a consumer whose
      demand is non-negative and whose flexibility is a fraction keeps a
      non-negative demand. */
  lemma {:induction false} SheddingReduction(cs: seq<ConsumerView>, balance: real, j: int)
    requires Distinct(ConsumerIds(cs)) && 0 <= j < |cs|
    ensures 0.0 <= DemandReduction(cs[j].id, Shedding(cs, balance)) <= FlexibleLoad(cs[j])
    ensures 0.0 <= cs[j].currentDemand && 0.0 <= cs[j].flexibility <= 1.0 ==>
              cs[j].currentDemand - DemandReduction(cs[j].id, Shedding(cs, balance)) >= 0.0
  {
    var acts := Shedding(cs, balance);
    SheddingDistinct(cs, balance, acts);
    ShedActionsCapped(cs, balance, acts, j);
    ReductionAtMost(acts, cs[j].id, cs[j].FlexibleDemand());
    ReductionWithin(DemandReduction(cs[j].id, acts), cs[j]);
    FlexibleLoadAtMost(cs[j]);
  }

  /** When no consumer is named twice and every action naming `k` reduces it
      by a positive amount of at most `cap`, the total reduction of `k` is
      either nothing or such an amount. */
  lemma {:induction false} ReductionAtMost(acts: seq<LoadAction>, k: string, cap: real)
    requires Distinct(ActionIds(acts))
    requires forall i :: 0 <= i < |acts| && acts[i].consumerId == k ==> 0.0 < acts[i].reduction <= cap
    ensures DemandReduction(k, acts) == 0.0 || 0.0 < DemandReduction(k, acts) <= cap
  {
    if forall i :: 0 <= i < |acts| ==> acts[i].consumerId != k {
      DemandReductionAbsent(k, acts);
    } else {
      var i :| 0 <= i < |acts| && acts[i].consumerId == k;
      forall n | 0 <= n < |acts| && n != i ensures acts[n].consumerId != acts[i].consumerId {
        assert ActionIds(acts)[n] != ActionIds(acts)[i];
      }
      DemandReductionOnce(acts, i);
    }
  }

  /** A reduction of nothing, or of a positive amount within `c`'s flexible
      demand, is within its flexible load. */
  lemma ReductionWithin(r: real, c: ConsumerView)
    requires r == 0.0 || 0.0 < r <= c.FlexibleDemand()
    ensures 0.0 <= r <= FlexibleLoad(c)
  {
  }

  /** A flexibility that is a fraction makes at most the whole demand flexible. */
  lemma FlexibleLoadAtMost(c: ConsumerView)
    ensures 0.0 <= c.currentDemand && 0.0 <= c.flexibility <= 1.0 ==> FlexibleLoad(c) <= c.currentDemand
  {
  }

  /** An action of the shedding fits the one consumer it names. */
  lemma ShedActionFits(cs: seq<ConsumerView>, balance: real, acts: seq<LoadAction>, i: int, j: int)
    requires acts == Shedding(cs, balance) && Distinct(ConsumerIds(cs))
    requires 0 <= i < |acts| && 0 <= j < |cs| && acts[i].consumerId == cs[j].id
    ensures ReductionFits(acts[i], cs[j])
  {
    SheddingFits(cs, balance, acts);
    var m :| 0 <= m < |cs| && ReductionFits(acts[i], cs[m]);
    assert ConsumerIds(cs)[m] == ConsumerIds(cs)[j];
    assert m == j;
  }

  /** `RegistryReduction` for every registered consumer at once. */
  lemma RegistryReductions(ids: seq<string>, m: map<string, Consumer>, balance: real)
    requires Registry(ids, m) && (forall c :: c in m ==> m[c].id == c)
    ensures forall k :: k in m ==>
              0.0 <= DemandReduction(k, Shedding(ConsumerViews(ids, m), balance)) <= FlexibleLoad(m[k].View())
    ensures forall k :: k in m && 0.0 <= m[k].currentDemand && 0.0 <= m[k].flexibility <= 1.0 ==>
              m[k].currentDemand - DemandReduction(k, Shedding(ConsumerViews(ids, m), balance)) >= 0.0
  {
    forall k | k in m
      ensures 0.0 <= DemandReduction(k, Shedding(ConsumerViews(ids, m), balance)) <= FlexibleLoad(m[k].View())
      ensures 0.0 <= m[k].currentDemand && 0.0 <= m[k].flexibility <= 1.0 ==>
                m[k].currentDemand - DemandReduction(k, Shedding(ConsumerViews(ids, m), balance)) >= 0.0
    {
      RegistryReduction(ids, m, balance, k);
    }
  }

  /** Every action of the shedding that names consumer `cs[j]` reduces it by
      a positive amount of at most its flexible demand. */
  lemma {:induction false} ShedActionsCapped(cs: seq<ConsumerView>, balance: real, acts: seq<LoadAction>, j: int)
    requires acts == Shedding(cs, balance) && Distinct(ConsumerIds(cs)) && 0 <= j < |cs|
    ensures forall i :: 0 <= i < |acts| && acts[i].consumerId == cs[j].id ==>
              0.0 < acts[i].reduction <= cs[j].FlexibleDemand()
  {
    forall i | 0 <= i < |acts| && acts[i].consumerId == cs[j].id
      ensures 0.0 < acts[i].reduction <= cs[j].FlexibleDemand()
    {
      ShedActionFits(cs, balance, acts, i, j);
    }
  }

  /** `SheddingReduction` for the consumer registered under `k`. */
  lemma RegistryReduction(ids: seq<string>, m: map<string, Consumer>, balance: real, k: string)
    requires Registry(ids, m) && (forall c :: c in m ==> m[c].id == c) && k in m
    ensures 0.0 <= DemandReduction(k, Shedding(ConsumerViews(ids, m), balance)) <= FlexibleLoad(m[k].View())
    ensures 0.0 <= m[k].currentDemand && 0.0 <= m[k].flexibility <= 1.0 ==>
              m[k].currentDemand - DemandReduction(k, Shedding(ConsumerViews(ids, m), balance)) >= 0.0
  {
    var cs := ConsumerViews(ids, m);
    ConsumerIdsOf(ids, m);
    var j :| 0 <= j < |ids| && ids[j] == k;
    SheddingReduction(cs, balance, j);
  }

  /** The units of a registry keyed by unit id have the registry's ids. */
  lemma StorageIdsOf(ids: seq<string>, m: map<string, EnergyStorage>)
    requires Registry(ids, m) && forall k :: k in m ==> m[k].id == k
    ensures UnitIds(StorageViews(ids, m)) == ids
  {
  }

  /** Decisions computed over a registry keyed by unit id name registered
      units, each at most once, and fit the unit they name. */
  lemma DecisionsFitRegistry(ids: seq<string>, m: map<string, EnergyStorage>, balance: real, ds: seq<Decision>)
    requires Registry(ids, m) && forall k :: k in m ==> m[k].id == k
    requires ds == StorageDecisions(StorageViews(ids, m), balance)
    ensures Distinct(DecisionIds(ds))
    ensures forall i :: 0 <= i < |ds| ==> ds[i].storageId in m && Fits(ds[i], m[ds[i].storageId].View(), ds[i].action)
  {
    var units := StorageViews(ids, m);
    StorageIdsOf(ids, m);
    StorageDecisionsBounds(units, balance, ds);
    forall i | 0 <= i < |ds|
      ensures ds[i].storageId in m && Fits(ds[i], m[ds[i].storageId].View(), ds[i].action)
    {
      var a := if balance > 0.0 then Charge else Discharge;
      var j :| 0 <= j < |units| && Fits(ds[i], units[j], a);
      assert units[j] == m[ids[j]].View();
    }
  }

  /** The recommendations over a registry keyed by consumer id name
      registered consumers, each at most once. */
  lemma RecommendationsInRegistry(ids: seq<string>, m: map<string, Consumer>, recs: seq<Recommendation>)
    requires Registry(ids, m) && forall k :: k in m ==> m[k].id == k
    requires recs == PrioritizeLoads(ConsumerViews(ids, m))
    ensures Distinct(RecommendationIds(recs))
    ensures forall i :: 0 <= i < |recs| ==> recs[i].consumerId in m
  {
    ConsumerIdsOf(ids, m);
    PrioritizeLoadsDistinct(ConsumerViews(ids, m), recs);
    RecommendationsRegistered(ids, m, recs);
  }

  /** Each recommendation over a registry names a registered consumer. */
  lemma RecommendationsRegistered(ids: seq<string>, m: map<string, Consumer>, recs: seq<Recommendation>)
    requires Registry(ids, m) && forall k :: k in m ==> m[k].id == k
    requires recs == PrioritizeLoads(ConsumerViews(ids, m))
    ensures forall i :: 0 <= i < |recs| ==> recs[i].consumerId in m
  {
    var cs := ConsumerViews(ids, m);
    ConsumerIdsOf(ids, m);
    PrioritizeLoadsMembers(cs, recs);
    forall i | 0 <= i < |recs| ensures recs[i].consumerId in m {
      var j :| 0 <= j < |cs| && recs[i] == RecommendationOf(cs[j]) && cs[j].FlexibleDemand() > 0.0;
      assert ConsumerIds(cs)[j] == cs[j].id;
    }
  }


  /** The consumers of a registry keyed by consumer id have the registry's ids. */
  lemma ConsumerIdsOf(ids: seq<string>, m: map<string, Consumer>)
    requires Registry(ids, m) && forall k :: k in m ==> m[k].id == k
    ensures ConsumerIds(ConsumerViews(ids, m)) == ids
  {
    var cs := ConsumerViews(ids, m);
    forall j | 0 <= j < |ids| ensures ConsumerIds(cs)[j] == ids[j] {
      assert cs[j] == m[ids[j]].View();
    }
  }

  /** One decision applied in place through `charge` or `discharge`: the
      named unit takes exactly the decided amount and every other unit keeps
      its level. */
  method ApplyDecision(units: map<string, EnergyStorage>, d: Decision) returns (amount: real)
    requires forall k :: k in units ==> units[k].id == k
    requires d.storageId in units && Fits(d, units[d.storageId].View(), d.action)
    modifies units[d.storageId]
    ensures amount == d.amount
    ensures units[d.storageId].currentLevel == old(units[d.storageId].currentLevel) + Signed(d)
    ensures old(units[d.storageId].View().WithinBounds()) ==> units[d.storageId].View().WithinBounds()
    ensures forall k :: k in units && k != d.storageId ==> units[k].currentLevel == old(units[k].currentLevel)
  {
    var u := units[d.storageId];
    forall k | k in units && k != d.storageId ensures units[k] != u {
      assert units[k].id == k;
    }
    if d.action == Charge {
      amount := u.Charge(d.amount);
    } else {
      amount := u.Discharge(d.amount);
    }
  }

  /** With one decision per unit, no later decision names the unit of
      decision `i`. */
  lemma {:induction false} LaterDecisionsElsewhere(decisions: seq<Decision>, i: int)
    requires Distinct(DecisionIds(decisions)) && 0 <= i < |decisions|
    ensures forall j :: i < j < |decisions| ==> decisions[j].storageId != decisions[i].storageId
  {
    forall j | i < j < |decisions| ensures decisions[j].storageId != decisions[i].storageId {
      assert DecisionIds(decisions)[i] != DecisionIds(decisions)[j];
    }
  }

  /** The storage step of `execute_balancing_strategy`: each decision is
      applied in turn and the amount the unit reports is recorded. Every unit
      takes exactly the decided amount, only decided units change, and a
      unit within its bounds stays within them. */
  method ApplyDecisions(units: map<string, EnergyStorage>, decisions: seq<Decision>) returns (applied: seq<Decision>)
    requires forall k :: k in units ==> units[k].id == k
    requires Distinct(DecisionIds(decisions))
    requires forall i :: 0 <= i < |decisions| ==>
               decisions[i].storageId in units
               && Fits(decisions[i], units[decisions[i].storageId].View(), decisions[i].action)
    modifies units.Values
    ensures forall k :: k in units && old(units[k].View().WithinBounds()) ==> units[k].View().WithinBounds()
    ensures applied == decisions
    ensures forall k :: k in units ==>
              units[k].currentLevel == old(units[k].currentLevel) + LevelChange(k, decisions)
  {
    applied := [];
    var i := 0;
    while i < |decisions|
      invariant 0 <= i <= |decisions|
      invariant |applied| == i && forall j :: 0 <= j < i ==> applied[j] == decisions[j]
      invariant forall k :: k in units && 0.0 <= old(units[k].currentLevel) <= units[k].capacity ==>
                  0.0 <= units[k].currentLevel <= units[k].capacity
      invariant forall k :: k in units ==>
                  units[k].currentLevel == old(units[k].currentLevel) + LevelChange(k, applied)
      invariant forall j :: i <= j < |decisions| ==>
                  units[decisions[j].storageId].currentLevel == old(units[decisions[j].storageId].currentLevel)
    {
      var d := decisions[i];
      LaterDecisionsElsewhere(decisions, i);
      LevelChangeSnoc(applied, d);
      var amount := ApplyDecision(units, d);
      applied := applied + [Decision(d.storageId, d.action, amount, d.kind)];
      i := i + 1;
    }
  }

  /** Load shedding over a consumer registry: on a negative `balance` the
      prioritised loads are shed against the deficit in place. */
  method ShedLoads(ids: seq<string>, consumers: map<string, Consumer>, balance: real)
    returns (acts: seq<LoadAction>)
    requires Registry(ids, consumers)
    requires forall k :: k in consumers ==> consumers[k].id == k
    modifies consumers.Values
    ensures acts == old(Shedding(ConsumerViews(ids, consumers), balance))
    ensures forall k :: k in consumers ==>
              consumers[k].currentDemand == old(consumers[k].currentDemand) - DemandReduction(k, acts)
  {
    RecommendationsRegistered(ids, consumers, PrioritizeLoads(ConsumerViews(ids, consumers)));
    var recs := if balance < 0.0 then PrioritizeLoads(ConsumerViews(ids, consumers)) else [];
    acts := ShedConsumers(consumers, recs, -balance);
    SheddingPlan(old(ConsumerViews(ids, consumers)), balance, recs);
  }

  /** The shedding is the walk over the plan: the prioritised loads on a
      negative balance, nothing otherwise. */
  lemma SheddingPlan(cs: seq<ConsumerView>, balance: real, recs: seq<Recommendation>)
    requires recs == if balance < 0.0 then PrioritizeLoads(cs) else []
    ensures Shedding(cs, balance) == Shed(recs, -balance)
  {
  }

  /** One step of the shedding walk from position `i`, while a deficit
      remains. */
  lemma {:induction false} ShedStep(recs: seq<Recommendation>, i: int, remaining: real)
    requires 0 <= i < |recs| && remaining > 0.0
    ensures var reduction := Min(recs[i].flexibleDemand, remaining);
            Shed(recs[i..], remaining)
            == if reduction > 0.0
               then [LoadAction(recs[i].consumerId, recs[i].category, reduction)] + Shed(recs[i + 1..], remaining - reduction)
               else Shed(recs[i + 1..], remaining)
  {
    assert recs[i..][1..] == recs[i + 1..];
  }

  /** One shed consumer's demand lowered in place by `reduction`; every
      other consumer keeps its demand. */
  method ReduceDemand(consumers: map<string, Consumer>, id: string, reduction: real)
    requires forall k :: k in consumers ==> consumers[k].id == k
    requires id in consumers
    modifies consumers[id]
    ensures consumers[id].currentDemand == old(consumers[id].currentDemand) - reduction
    ensures forall k :: k in consumers && k != id ==> consumers[k].currentDemand == old(consumers[k].currentDemand)
  {
    var c := consumers[id];
    forall k | k in consumers && k != id ensures consumers[k] != c {
      assert consumers[k].id == k;
    }
    c.currentDemand := c.currentDemand - reduction;
  }

  /** The load-management step of `execute_balancing_strategy`: the
      recommendations are shed against `deficit` in order, and each shed
      consumer's demand drops by its reduction in place. */
  method ShedConsumers(consumers: map<string, Consumer>, recs: seq<Recommendation>, deficit: real)
    returns (acts: seq<LoadAction>)
    requires forall k :: k in consumers ==> consumers[k].id == k
    requires forall i :: 0 <= i < |recs| ==> recs[i].consumerId in consumers
    modifies consumers.Values
    ensures acts == Shed(recs, deficit)
    ensures forall k :: k in consumers ==>
              consumers[k].currentDemand == old(consumers[k].currentDemand) - DemandReduction(k, acts)
  {
    var remaining := deficit;
    acts := [];
    var i := 0;
    while i < |recs|
      invariant 0 <= i <= |recs|
      invariant acts + Shed(recs[i..], remaining) == Shed(recs, deficit)
      invariant forall k :: k in consumers ==>
                  consumers[k].currentDemand == old(consumers[k].currentDemand) - DemandReduction(k, acts)
    {
      if remaining <= 0.0 {
        break;
      }
      var r := recs[i];
      var reduction := Min(r.flexibleDemand, remaining);
      ShedStep(recs, i, remaining);
      if reduction > 0.0 {
        var act := LoadAction(r.consumerId, r.category, reduction);
        DemandReductionSnoc(acts, act);
        ReduceDemand(consumers, r.consumerId, reduction);
        acts := acts + [act];
        remaining := remaining - reduction;
      }
      i := i + 1;
    }
  }

  class EnergyBalancer {
    const microgridId: string
    const connectedMicrogrids: seq<string>
    const forecastHorizon: int       // hours
    var storageIds: seq<string>
    var storageUnits: map<string, EnergyStorage>
    var producerIds: seq<string>
    var producers: map<string, Producer>
    var consumerIds: seq<string>
    var consumers: map<string, Consumer>

    /** The three dicts, each keyed by its entities' ids, with the ids kept
        in insertion order. */
    ghost predicate Valid()
      reads this
    {
      && Registry(storageIds, storageUnits)
      && Registry(producerIds, producers)
      && Registry(consumerIds, consumers)
      && (forall k :: k in storageUnits ==> storageUnits[k].id == k)
      && (forall k :: k in producers ==> producers[k].id == k)
      && (forall k :: k in consumers ==> consumers[k].id == k)
    }

    /** `0 <= current_level <= capacity` for every registered unit: nothing
        in the source enforces it, but every operation keeps it. */
    ghost predicate UnitsWithinBounds()
      reads this, storageUnits.Values
    {
      forall k :: k in storageUnits ==> storageUnits[k].View().WithinBounds()
    }

    /** A missing list of peers is the empty list. */
    constructor (microgridId: string, connectedMicrogrids: Option<seq<string>>, forecastHorizon: int := 24)
      ensures Valid()
      ensures this.microgridId == microgridId && this.forecastHorizon == forecastHorizon
      ensures this.connectedMicrogrids == if connectedMicrogrids.Some? then connectedMicrogrids.value else []
      ensures storageUnits == map[] && producers == map[] && consumers == map[]
    {
      this.microgridId := microgridId;
      this.connectedMicrogrids := if connectedMicrogrids.Some? then connectedMicrogrids.value else [];
      this.forecastHorizon := forecastHorizon;
      storageIds := [];
      storageUnits := map[];
      producerIds := [];
      producers := map[];
      consumerIds := [];
      consumers := map[];
    }

    /** `add_storage`: registers the unit under its id, replacing one with
        the same id in place. */
    method AddStorage(s: EnergyStorage)
      requires Valid()
      modifies this
      ensures Valid()
      ensures old(UnitsWithinBounds()) && s.View().WithinBounds() ==> UnitsWithinBounds()
      ensures storageUnits == old(storageUnits)[s.id := s]
      ensures storageIds == if s.id in old(storageUnits) then old(storageIds) else old(storageIds) + [s.id]
      ensures producerIds == old(producerIds) && producers == old(producers)
      ensures consumerIds == old(consumerIds) && consumers == old(consumers)
    {
      if s.id !in storageUnits {
        storageIds := storageIds + [s.id];
      }
      storageUnits := storageUnits[s.id := s];
    }

    /** `add_producer`. */
    method AddProducer(p: Producer)
      requires Valid()
      modifies this
      ensures Valid()
      ensures producers == old(producers)[p.id := p]
      ensures producerIds == if p.id in old(producers) then old(producerIds) else old(producerIds) + [p.id]
      ensures storageIds == old(storageIds) && storageUnits == old(storageUnits)
      ensures consumerIds == old(consumerIds) && consumers == old(consumers)
    {
      if p.id !in producers {
        producerIds := producerIds + [p.id];
      }
      producers := producers[p.id := p];
    }

    /** `add_consumer`. */
    method AddConsumer(c: Consumer)
      requires Valid()
      modifies this
      ensures Valid()
      ensures consumers == old(consumers)[c.id := c]
      ensures consumerIds == if c.id in old(consumers) then old(consumerIds) else old(consumerIds) + [c.id]
      ensures storageIds == old(storageIds) && storageUnits == old(storageUnits)
      ensures producerIds == old(producerIds) && producers == old(producers)
    {
      if c.id !in consumers {
        consumerIds := consumerIds + [c.id];
      }
      consumers := consumers[c.id := c];
    }

    /** The storage units' states, in registration order. */
    function Units(): seq<UnitView>
      requires forall i :: 0 <= i < |storageIds| ==> storageIds[i] in storageUnits
      reads this, storageUnits.Values
    {
      StorageViews(storageIds, storageUnits)
    }

    /** The producers, in registration order. */
    function ProducerList(): seq<Producer>
      requires forall i :: 0 <= i < |producerIds| ==> producerIds[i] in producers
      reads this
    {
      Lookup(producerIds, producers)
    }

    /** The consumers, in registration order. */
    function ConsumerList(): seq<Consumer>
      requires forall i :: 0 <= i < |consumerIds| ==> consumerIds[i] in consumers
      reads this
    {
      Lookup(consumerIds, consumers)
    }

    /** The consumers' states, in registration order. */
    function ConsumerStates(): seq<ConsumerView>
      requires forall i :: 0 <= i < |consumerIds| ==> consumerIds[i] in consumers
      reads this, consumers.Values
    {
      ConsumerViews(consumerIds, consumers)
    }

    /** `get_current_balance` at clock reading `now`. */
    function GetCurrentBalance(now: int): (r: BalanceReport)
      requires Valid()
      reads this, storageUnits.Values, consumers.Values
      ensures r == BalanceReportOf(now, ProducerList(), ConsumerStates(), Units())
      ensures UnitsWithinBounds() ==> 0.0 <= r.storageCapacity && 0.0 <= r.storageLevel
    {
      BalanceReportOf(now, ProducerList(), ConsumerStates(), Units())
    }

    /** The forecast production minus the forecast demand at `t`. */
    function NetForecast(t: int): real
      requires Registry(producerIds, producers) && Registry(consumerIds, consumers)
      reads this
    {
      ForecastProduction(ProducerList(), t) - ForecastDemand(ConsumerList(), t)
    }

    /** `forecast_balance`: one row per hour from `now` on, as many as the
        effective horizon; a negative horizon gives no rows. */
    method ForecastBalance(now: int, horizonHours: Option<int>) returns (rows: seq<ForecastRow>)
      requires Valid()
      ensures rows == HourlyRows(now, EffectiveHorizon(horizonHours, forecastHorizon), RowsOf(ProducerList(), ConsumerList()))
      ensures horizonHours == None || horizonHours == Some(0) ==>
                |rows| == if forecastHorizon > 0 then forecastHorizon else 0
      ensures horizonHours.Some? && horizonHours.value != 0 ==>
                |rows| == if horizonHours.value > 0 then horizonHours.value else 0
      ensures forall i :: 0 <= i < |rows| ==>
                && rows[i].timestamp == now + i * HOUR
                && rows[i].production == ForecastProduction(ProducerList(), rows[i].timestamp)
                && rows[i].consumption == ForecastDemand(ConsumerList(), rows[i].timestamp)
                && rows[i].balance == rows[i].production - rows[i].consumption
    {
      ForecastRows(now, EffectiveHorizon(horizonHours, forecastHorizon), ProducerList(), ConsumerList());
      rows := HourlyTable(now, EffectiveHorizon(horizonHours, forecastHorizon), RowsOf(ProducerList(), ConsumerList()));
    }

    /** `optimize_storage_allocation` for timestamp `t`: the greedy split of
        the net forecast over the units as they stand now. */
    method OptimizeStorageAllocation(t: int) returns (decisions: seq<Decision>)
      requires Valid()
      ensures decisions == StorageDecisions(Units(), NetForecast(t))
    {
      var production := ForecastProduction(ProducerList(), t);
      var consumption := ForecastDemand(ConsumerList(), t);
      decisions := Optimize(Units(), production - consumption);
    }

    /** Step 1 of `execute_balancing_strategy`: the forecast from `now`,
        and, when it has a first hour, the storage decisions for that hour
        (which starts at `now`) applied in place. */
    method StorageStep(now: int) returns (actions: seq<Decision>)
      requires Valid()
      modifies storageUnits.Values
      ensures unchanged(this) && Valid()
      ensures old(UnitsWithinBounds()) ==> UnitsWithinBounds()
      ensures actions == if forecastHorizon > 0 then old(StorageDecisions(Units(), NetForecast(now))) else []
      ensures forall k :: k in storageUnits ==>
                storageUnits[k].currentLevel == old(storageUnits[k].currentLevel) + LevelChange(k, actions)
      ensures ConsumerStates() == old(ConsumerStates())
    {
      DecisionsFitRegistry(storageIds, storageUnits, NetForecast(now), StorageDecisions(Units(), NetForecast(now)));
      ghost var plan := if forecastHorizon > 0 then StorageDecisions(Units(), NetForecast(now)) else [];
      var decisions := PlanStorage(now);
      assert unchanged(this) && unchanged(storageUnits.Values) && decisions == plan;
      actions := ApplyPlan(decisions);
    }

    /** The applying half of step 1: decisions that fit the registered
        units, one per unit, applied in place. */
    method ApplyPlan(decisions: seq<Decision>) returns (actions: seq<Decision>)
      requires Valid()
      requires Distinct(DecisionIds(decisions))
      requires forall i :: 0 <= i < |decisions| ==>
                 decisions[i].storageId in storageUnits
                 && Fits(decisions[i], storageUnits[decisions[i].storageId].View(), decisions[i].action)
      modifies storageUnits.Values
      ensures unchanged(this) && Valid()
      ensures old(UnitsWithinBounds()) ==> UnitsWithinBounds()
      ensures actions == decisions
      ensures forall k :: k in storageUnits ==>
                storageUnits[k].currentLevel == old(storageUnits[k].currentLevel) + LevelChange(k, actions)
      ensures ConsumerStates() == old(ConsumerStates())
    {
      actions := ApplyDecisions(storageUnits, decisions);
      assert unchanged(this) && unchanged(consumers.Values);
    }

    /** The planning half of step 1: the forecast from `now`, and when it
        has a first row, the allocation for that row's timestamp (which is
        `now`); no forecast rows, no decisions. */
    method PlanStorage(now: int) returns (decisions: seq<Decision>)
      requires Valid()
      ensures decisions == if forecastHorizon > 0 then StorageDecisions(Units(), NetForecast(now)) else []
    {
      var forecast := ForecastBalance(now, None);
      ForecastStart(now, forecastHorizon, ProducerList(), ConsumerList());
      decisions := [];
      if |forecast| > 0 {
        decisions := OptimizeStorageAllocation(forecast[0].timestamp);
      }
    }

    /** Step 2 of `execute_balancing_strategy`: on a negative `balance`, the
        prioritised loads are shed against the deficit in place. */
    method LoadStep(balance: real) returns (acts: seq<LoadAction>)
      requires Valid()
      modifies consumers.Values
      ensures unchanged(this) && Valid()
      ensures acts == old(Shedding(ConsumerStates(), balance))
      ensures forall k :: k in consumers ==>
                consumers[k].currentDemand == old(consumers[k].currentDemand) - DemandReduction(k, acts)
      ensures forall k :: k in consumers ==>
                old(consumers[k].currentDemand) - FlexibleLoad(old(consumers[k].View())) <= consumers[k].currentDemand
                <= old(consumers[k].currentDemand)
      ensures forall k :: k in consumers && 0.0 <= old(consumers[k].currentDemand) && 0.0 <= consumers[k].flexibility <= 1.0 ==>
                0.0 <= consumers[k].currentDemand
      ensures forall k :: k in storageUnits ==> storageUnits[k].currentLevel == old(storageUnits[k].currentLevel)
      ensures UnitsWithinBounds() == old(UnitsWithinBounds())
    {
      RegistryReductions(consumerIds, consumers, balance);
      acts := ShedLoads(consumerIds, consumers, balance);
    }

    /** `execute_balancing_strategy` at clock reading `now`: the current
        balance, the storage step, load shedding against the current (not the
        post-storage) deficit, and the exchange with the peers driven by the
        current balance. */
    method ExecuteBalancingStrategy(now: int) returns (report: ActionReport)
      requires Valid()
      requires forecastHorizon >= 0
      modifies storageUnits.Values, consumers.Values
      ensures Valid()
      ensures old(UnitsWithinBounds()) ==> UnitsWithinBounds()
      ensures report.timestamp == now
      ensures report.currentBalance == old(GetCurrentBalance(now))
      ensures report.storageActions
              == if forecastHorizon > 0 then old(StorageDecisions(Units(), NetForecast(now))) else []
      ensures report.loadManagement == old(Shedding(ConsumerStates(), GetCurrentBalance(now).balance))
      ensures report.gridExchange == ExchangePlan(connectedMicrogrids, report.currentBalance.balance)
      ensures forall k :: k in storageUnits ==>
                storageUnits[k].currentLevel == old(storageUnits[k].currentLevel) + LevelChange(k, report.storageActions)
      ensures forall k :: k in consumers ==>
                consumers[k].currentDemand == old(consumers[k].currentDemand) - DemandReduction(k, report.loadManagement)
      ensures forall k :: k in consumers && 0.0 <= old(consumers[k].currentDemand) && 0.0 <= consumers[k].flexibility <= 1.0 ==>
                0.0 <= consumers[k].currentDemand
    {
      var current := GetCurrentBalance(now);
      var storageActions := StorageStep(now);
      var loadActions := LoadStep(current.balance);
      var exchanges := ExchangeWithPeers(connectedMicrogrids, current.balance);
      report := ActionReport(now, current, storageActions, loadActions, exchanges);
    }
  }
}
