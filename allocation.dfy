/** `optimize_storage_allocation`: the greedy, priority-ordered split of a
    forecast surplus (or deficit) over the storage units, under each unit's
    room (or level) and its charge (or discharge) rate. The result is a list
    of decisions, not yet applied to any unit. */
module Allocation {
  import opened Quantities
  import opened Sequences
  import opened Storage

  datatype Action = Charge | Discharge

  /** One entry of the decisions dict: unit id, action, amount and unit type. */
  datatype Decision = Decision(storageId: string, action: Action, amount: real, kind: StorageType)

  /** How much the unit can take (charge) or give (discharge) by capacity. */
  function Limit(u: UnitView, a: Action): real {
    if a == Charge then u.AvailableCapacity() else u.level
  }

  /** The rate limit for the action. */
  function Rate(u: UnitView, a: Action): real {
    if a == Charge then u.maxChargeRate else u.maxDischargeRate
  }

  /** `min(limit, rate, remaining)`: what the loop gives one unit. */
  function Share(u: UnitView, a: Action, remaining: real): real {
    Min(Min(Limit(u, a), Rate(u, a)), remaining)
  }

  /** The sort key `(priority, -state_of_charge)`. A candidate has room or
      charge, so under the unit invariant its capacity is positive; the
      zero-capacity branch is never taken for one. */
  function AllocationKey(u: UnitView): SortKey {
    SortKey(u.priority, if u.capacity == 0.0 then 0.0 else -u.StateOfCharge())
  }

  /** The units with room left (charge) or with a positive level (discharge),
      in their registration order. */
  function Candidates(units: seq<UnitView>, a: Action): seq<UnitView>
    decreases |units|
  {
    if units == [] then []
    else (if Limit(units[0], a) > 0.0 then [units[0]] else []) + Candidates(units[1..], a)
  }

  /** The allocation loop over the sorted candidates: stop once nothing
      remains, otherwise give each unit `min(limit, rate, remaining)` and
      record it when positive. */
  function Allocate(sorted: seq<UnitView>, remaining: real, a: Action): seq<Decision>
    decreases |sorted|
  {
    if sorted == [] || remaining <= 0.0 then []
    else
      var u := sorted[0];
      var amount := Share(u, a, remaining);
      if amount > 0.0 then [Decision(u.id, a, amount, u.kind)] + Allocate(sorted[1..], remaining - amount, a)
      else Allocate(sorted[1..], remaining, a)
  }

  /** The whole decision: charge on a surplus, discharge on a deficit,
      nothing when balanced. */
  function StorageDecisions(units: seq<UnitView>, balance: real): seq<Decision> {
    if balance > 0.0 then Allocate(SortBy(Candidates(units, Charge), AllocationKey), balance, Charge)
    else if balance < 0.0 then Allocate(SortBy(Candidates(units, Discharge), AllocationKey), -balance, Discharge)
    else []
  }

  function Total(ds: seq<Decision>): real
    decreases |ds|
  {
    if ds == [] then 0.0 else ds[0].amount + Total(ds[1..])
  }

  function DecisionIds(ds: seq<Decision>): (r: seq<string>)
    ensures |r| == |ds| && forall i :: 0 <= i < |ds| ==> r[i] == ds[i].storageId
    decreases |ds|
  {
    if ds == [] then [] else [ds[0].storageId] + DecisionIds(ds[1..])
  }

  function UnitIds(us: seq<UnitView>): (r: seq<string>)
    ensures |r| == |us| && forall i :: 0 <= i < |us| ==> r[i] == us[i].id
    decreases |us|
  {
    if us == [] then [] else [us[0].id] + UnitIds(us[1..])
  }

  /** A decision that respects unit `u`: same unit, positive, within its
      capacity-side limit and its rate. */
  predicate Fits(d: Decision, u: UnitView, a: Action) {
    d.storageId == u.id && d.kind == u.kind && d.action == a
    && 0.0 < d.amount && d.amount <= Limit(u, a) && d.amount <= Rate(u, a)
  }

  /** Every decision is positive and within the limits of one of the units. */
  lemma {:induction false} AllocateFits(sorted: seq<UnitView>, remaining: real, a: Action)
    ensures forall i :: 0 <= i < |Allocate(sorted, remaining, a)| ==>
              exists j :: 0 <= j < |sorted| && Fits(Allocate(sorted, remaining, a)[i], sorted[j], a)
    decreases |sorted|
  {
    if sorted != [] && remaining > 0.0 {
      var u := sorted[0];
      var amount := Share(u, a, remaining);
      var rem' := if amount > 0.0 then remaining - amount else remaining;
      var rest := Allocate(sorted[1..], rem', a);
      AllocateFits(sorted[1..], rem', a);
      var ds := Allocate(sorted, remaining, a);
      assert ds == if amount > 0.0 then [Decision(u.id, a, amount, u.kind)] + rest else rest;
      forall i | 0 <= i < |ds| ensures exists j :: 0 <= j < |sorted| && Fits(ds[i], sorted[j], a) {
        if amount > 0.0 && i == 0 {
          assert Fits(ds[0], sorted[0], a);
        } else {
          var k := if amount > 0.0 then i - 1 else i;
          assert 0 <= k < |rest| && ds[i] == rest[k];
          var j :| 0 <= j < |sorted[1..]| && Fits(rest[k], sorted[1..][j], a);
          assert sorted[1..][j] == sorted[j + 1];
        }
      }
    }
  }

  /** The decisions follow the order of the units, one unit at most once. */
  lemma {:induction false} AllocateOrder(sorted: seq<UnitView>, remaining: real, a: Action)
    ensures Subsequence(DecisionIds(Allocate(sorted, remaining, a)), UnitIds(sorted))
    decreases |sorted|
  {
    if sorted != [] && remaining > 0.0 {
      var u := sorted[0];
      var amount := Share(u, a, remaining);
      assert UnitIds(sorted)[1..] == UnitIds(sorted[1..]);
      if amount > 0.0 {
        var rest := Allocate(sorted[1..], remaining - amount, a);
        AllocateOrder(sorted[1..], remaining - amount, a);
        var ds := [Decision(u.id, a, amount, u.kind)] + rest;
        assert DecisionIds(ds)[1..] == DecisionIds(rest);
      } else {
        AllocateOrder(sorted[1..], remaining, a);
      }
    }
  }

  /** Together the decisions never exceed what was to be allocated. */
  lemma {:induction false} AllocateTotal(sorted: seq<UnitView>, remaining: real, a: Action)
    ensures var ds := Allocate(sorted, remaining, a);
      && 0.0 <= Total(ds)
      && (remaining > 0.0 ==> Total(ds) <= remaining)
    decreases |sorted|
  {
    if sorted != [] && remaining > 0.0 {
      var u := sorted[0];
      var amount := Share(u, a, remaining);
      if amount > 0.0 {
        var rest := Allocate(sorted[1..], remaining - amount, a);
        AllocateTotal(sorted[1..], remaining - amount, a);
        var ds := [Decision(u.id, a, amount, u.kind)] + rest;
        assert ds[1..] == rest;
        assert remaining - amount <= 0.0 ==> rest == [];
      } else {
        AllocateTotal(sorted[1..], remaining, a);
      }
    }
  }

  lemma {:induction false} CandidatesSubsequence(units: seq<UnitView>, a: Action)
    ensures Subsequence(UnitIds(Candidates(units, a)), UnitIds(units))
    ensures forall u :: u in Candidates(units, a) ==> u in units && Limit(u, a) > 0.0
    ensures forall u :: u in units && Limit(u, a) > 0.0 ==> u in Candidates(units, a)
    decreases |units|
  {
    if units != [] {
      CandidatesSubsequence(units[1..], a);
      assert forall u :: u in units ==> u == units[0] || u in units[1..];
      assert UnitIds(units)[1..] == UnitIds(units[1..]);
      var rest := Candidates(units[1..], a);
      if Limit(units[0], a) > 0.0 {
        assert UnitIds([units[0]] + rest)[1..] == UnitIds(rest);
      } else {
        assert Candidates(units, a) == rest;
        assert UnitIds(units) != [];
      }
    }
  }

  /** What unit `u` can take (charge) or give (discharge) in one step, by
      room (level) and rate; nothing when that is not positive. */
  function Headroom(u: UnitView, a: Action): real {
    Pos(Min(Limit(u, a), Rate(u, a)))
  }

  function HeadroomOf(a: Action): UnitView -> real {
    u => Headroom(u, a)
  }

  lemma {:induction false} HeadroomNonneg(units: seq<UnitView>, a: Action)
    ensures SumBy(units, HeadroomOf(a)) >= 0.0
    decreases |units|
  {
    if units != [] {
      HeadroomNonneg(units[1..], a);
    }
  }

  /** The greedy walk allocates all it can: the whole remainder, or the
      summed headroom of the units when that is less. */
  lemma {:induction false} AllocateAmount(sorted: seq<UnitView>, remaining: real, a: Action)
    requires remaining > 0.0
    ensures Total(Allocate(sorted, remaining, a)) == Min(remaining, SumBy(sorted, HeadroomOf(a)))
    decreases |sorted|
  {
    if sorted != [] {
      var u := sorted[0];
      var amount := Share(u, a, remaining);
      HeadroomNonneg(sorted[1..], a);
      assert HeadroomOf(a)(u) == Headroom(u, a);
      if amount > 0.0 {
        var rest := Allocate(sorted[1..], remaining - amount, a);
        assert ([Decision(u.id, a, amount, u.kind)] + rest)[1..] == rest;
        if remaining - amount > 0.0 {
          AllocateAmount(sorted[1..], remaining - amount, a);
        } else {
          assert rest == [];
        }
      } else {
        AllocateAmount(sorted[1..], remaining, a);
      }
    }
  }

  /** Units left out of the candidates have no headroom, so the candidates
      have the headroom of all the units. */
  lemma {:induction false} CandidatesHeadroom(units: seq<UnitView>, a: Action)
    ensures SumBy(Candidates(units, a), HeadroomOf(a)) == SumBy(units, HeadroomOf(a))
    decreases |units|
  {
    if units != [] {
      CandidatesHeadroom(units[1..], a);
      var rest := Candidates(units[1..], a);
      assert HeadroomOf(a)(units[0]) == Headroom(units[0], a);
      if Limit(units[0], a) > 0.0 {
        assert ([units[0]] + rest)[1..] == rest;
      } else {
        assert Candidates(units, a) == rest;
      }
    }
  }

  /** The whole decision moves all the imbalance the units can absorb: on a
      surplus the total charged is the smaller of the surplus and the units'
      summed charge headroom, on a deficit the total discharged is the
      smaller of the deficit and their summed discharge headroom. */
  lemma StorageDecisionsTotal(units: seq<UnitView>, balance: real)
    ensures balance > 0.0 ==> Total(StorageDecisions(units, balance)) == Min(balance, SumBy(units, HeadroomOf(Charge)))
    ensures balance < 0.0 ==> Total(StorageDecisions(units, balance)) == Min(-balance, SumBy(units, HeadroomOf(Discharge)))
  {
    if balance != 0.0 {
      var a := if balance > 0.0 then Charge else Discharge;
      var rem := if balance > 0.0 then balance else -balance;
      var c := Candidates(units, a);
      AllocateAmount(SortBy(c, AllocationKey), rem, a);
      SortBySum(c, AllocationKey, HeadroomOf(a));
      CandidatesHeadroom(units, a);
    }
  }

  /** The candidates sorted by key: a permutation of the candidates, ordered
      by `(priority, -state_of_charge)`, ties in registration order, and
      drawn from the units with room (resp. charge). */
  lemma SortedCandidates(units: seq<UnitView>, a: Action, c: seq<UnitView>)
    requires c == Candidates(units, a)
    ensures && multiset(SortBy(c, AllocationKey)) == multiset(c)
      && SortedBy(SortBy(c, AllocationKey), AllocationKey)
      && (forall k :: WithKey(SortBy(c, AllocationKey), AllocationKey, k) == WithKey(c, AllocationKey, k))
      && (forall u :: u in SortBy(c, AllocationKey) ==> u in units && Limit(u, a) > 0.0)
  {
    var s := SortBy(c, AllocationKey);
    SortByCorrect(c, AllocationKey);
    forall k ensures WithKey(s, AllocationKey, k) == WithKey(c, AllocationKey, k) {
      SortByStable(c, AllocationKey, k);
    }
    CandidatesSubsequence(units, a);
    forall u | u in s ensures u in units && Limit(u, a) > 0.0 {
      assert u in multiset(s);
      assert u in c;
    }
  }

  /** Sorting the candidates of units with distinct ids repeats no id. */
  lemma SortedCandidatesDistinct(units: seq<UnitView>, a: Action, c: seq<UnitView>)
    requires c == Candidates(units, a)
    requires Distinct(UnitIds(units))
    ensures Distinct(UnitIds(SortBy(c, AllocationKey)))
  {
    var s := SortBy(c, AllocationKey);
    CandidatesSubsequence(units, a);
    SubsequenceDistinct(UnitIds(c), UnitIds(units));
    var f := (u: UnitView) => u.id;
    assert forall i, j :: 0 <= i < j < |c| ==> f(c[i]) != f(c[j]) by {
      forall i, j | 0 <= i < j < |c| ensures f(c[i]) != f(c[j]) {
        assert UnitIds(c)[i] == c[i].id && UnitIds(c)[j] == c[j].id;
      }
    }
    SortByDistinctBy(c, AllocationKey, f);
    forall i, j | 0 <= i < j < |UnitIds(s)| ensures UnitIds(s)[i] != UnitIds(s)[j] {
      assert f(s[i]) != f(s[j]);
    }
  }

  /** The properties of one allocation call: a surplus yields only charge
      decisions and a deficit only discharge decisions, each positive and
      within one distinct unit's limits, drawn in key order from the units
      that have room (resp. charge), never more in total than the imbalance;
      a balanced forecast yields none. */
  lemma StorageDecisionsBounds(units: seq<UnitView>, balance: real, ds: seq<Decision>)
    requires ds == StorageDecisions(units, balance)
    ensures && (balance == 0.0 ==> ds == [])
      && (balance > 0.0 ==>
            && Total(ds) <= balance
            && (forall i :: 0 <= i < |ds| ==> exists j :: 0 <= j < |units| && Fits(ds[i], units[j], Charge))
            && Subsequence(DecisionIds(ds), UnitIds(SortBy(Candidates(units, Charge), AllocationKey))))
      && (balance < 0.0 ==>
            && Total(ds) <= -balance
            && (forall i :: 0 <= i < |ds| ==> exists j :: 0 <= j < |units| && Fits(ds[i], units[j], Discharge))
            && Subsequence(DecisionIds(ds), UnitIds(SortBy(Candidates(units, Discharge), AllocationKey))))
      && 0.0 <= Total(ds)
      && (Distinct(UnitIds(units)) ==> Distinct(DecisionIds(ds)))
  {
    if balance != 0.0 {
      var a := if balance > 0.0 then Charge else Discharge;
      var rem := if balance > 0.0 then balance else -balance;
      var s := SortBy(Candidates(units, a), AllocationKey);
      assert ds == Allocate(s, rem, a);
      AllocateFits(s, rem, a);
      AllocateOrder(s, rem, a);
      AllocateTotal(s, rem, a);
      SortedCandidates(units, a, Candidates(units, a));
      forall i | 0 <= i < |ds| ensures exists j :: 0 <= j < |units| && Fits(ds[i], units[j], a) {
        var j :| 0 <= j < |s| && Fits(ds[i], s[j], a);
        assert s[j] in s;
        var m :| 0 <= m < |units| && units[m] == s[j];
      }
      if Distinct(UnitIds(units)) {
        SortedCandidatesDistinct(units, a, Candidates(units, a));
        SubsequenceDistinct(DecisionIds(ds), UnitIds(s));
      }
    }
  }

  /** A 40 kW surplus over two batteries registered lower priority first:
      the priority-1 unit is charged first, up to its 20 kW rate, and the
      other takes the remaining 20 kW. */
  lemma AllocationExample()
    ensures
      var low := UnitView("b2", Battery, 50.0, 0.0, 30.0, 30.0, 2);
      var high := UnitView("b1", Battery, 100.0, 50.0, 20.0, 20.0, 1);
      StorageDecisions([low, high], 40.0)
        == [Decision("b1", Charge, 20.0, Battery), Decision("b2", Charge, 20.0, Battery)]
  {
    var low := UnitView("b2", Battery, 50.0, 0.0, 30.0, 30.0, 2);
    var high := UnitView("b1", Battery, 100.0, 50.0, 20.0, 20.0, 1);
    assert Candidates([low, high], Charge) == [low, high] by {
      assert [low, high][1..] == [high];
      assert Candidates([high], Charge) == [high] by {
        assert [high][1..] == [];
      }
    }
    assert SortBy([low, high], AllocationKey) == [high, low] by {
      assert [low, high][1..] == [high];
      assert SortBy([high], AllocationKey) == [high] by {
        assert [high][1..] == [];
      }
      assert AllocationKey(low).major == 2 && AllocationKey(high).major == 1;
      assert InsertBy(low, [high], AllocationKey) == [high] + InsertBy(low, [], AllocationKey);
    }
    assert Allocate([high, low], 40.0, Charge) == [Decision("b1", Charge, 20.0, Battery)] + Allocate([low], 20.0, Charge) by {
      assert [high, low][1..] == [low];
      assert Share(high, Charge, 40.0) == 20.0;
    }
    assert Allocate([low], 20.0, Charge) == [Decision("b2", Charge, 20.0, Battery)] by {
      assert [low][1..] == [];
      assert Share(low, Charge, 20.0) == 20.0;
    }
  }

  /** `optimize_storage_allocation`: sort the units that can take part, then
      walk them in order. */
  method Optimize(units: seq<UnitView>, balance: real) returns (decisions: seq<Decision>)
    ensures decisions == StorageDecisions(units, balance)
  {
    decisions := [];
    if balance != 0.0 {
      var a := if balance > 0.0 then Charge else Discharge;
      var sorted := SortBy(Candidates(units, a), AllocationKey);
      decisions := AllocateInOrder(sorted, if balance > 0.0 then balance else -balance, a);
    }
  }

  /** The loop of `optimize_storage_allocation`, with the running remainder
      and the early exit once nothing remains. */
  method AllocateInOrder(sorted: seq<UnitView>, total: real, a: Action) returns (decisions: seq<Decision>)
    ensures decisions == Allocate(sorted, total, a)
  {
    decisions := [];
    var remaining := total;
    var i := 0;
    while i < |sorted|
      invariant 0 <= i <= |sorted|
      invariant decisions + Allocate(sorted[i..], remaining, a) == Allocate(sorted, total, a)
    {
      if remaining <= 0.0 {
        assert Allocate(sorted[i..], remaining, a) == [];
        break;
      }
      var u := sorted[i];
      var amount := Share(u, a, remaining);
      assert sorted[i..][1..] == sorted[i + 1..];
      if amount > 0.0 {
        AppendAssoc(decisions, [Decision(u.id, a, amount, u.kind)], Allocate(sorted[i + 1..], remaining - amount, a));
        decisions := decisions + [Decision(u.id, a, amount, u.kind)];
        remaining := remaining - amount;
      }
      i := i + 1;
    }
  }
}
