/** `prioritize_loads` and the load-shedding walk of
    `execute_balancing_strategy`: consumers are ordered least critical first,
    most flexible first within a priority, and their flexible demand is shed
    against the deficit until it is covered. */
module Loads {
  import opened Quantities
  import opened Sequences
  import opened Participants

  /** One entry of the recommendations dict. */
  datatype Recommendation = Recommendation(
    consumerId: string,
    category: string,
    currentDemand: real,
    flexibleDemand: real,
    priority: int)

  /** One entry of the `load_management` report list. */
  datatype LoadAction = LoadAction(consumerId: string, category: string, reduction: real)

  /** The sort key `(-priority, -flexibility)`. */
  function LoadKey(c: ConsumerView): SortKey {
    SortKey(-c.priority, -c.flexibility)
  }

  function RecommendationOf(c: ConsumerView): Recommendation {
    Recommendation(c.id, c.category, c.currentDemand, c.FlexibleDemand(), c.priority)
  }

  /** The consumers with positive flexible demand, as recommendations, in
      the given order. */
  function Recommend(cs: seq<ConsumerView>): seq<Recommendation>
    decreases |cs|
  {
    if cs == [] then []
    else (if cs[0].FlexibleDemand() > 0.0 then [RecommendationOf(cs[0])] else []) + Recommend(cs[1..])
  }

  /** `prioritize_loads`. */
  function PrioritizeLoads(cs: seq<ConsumerView>): seq<Recommendation> {
    Recommend(SortBy(cs, LoadKey))
  }

  function ConsumerIds(cs: seq<ConsumerView>): (r: seq<string>)
    ensures |r| == |cs| && forall i :: 0 <= i < |cs| ==> r[i] == cs[i].id
    decreases |cs|
  {
    if cs == [] then [] else [cs[0].id] + ConsumerIds(cs[1..])
  }

  function RecommendationIds(rs: seq<Recommendation>): (r: seq<string>)
    ensures |r| == |rs| && forall i :: 0 <= i < |rs| ==> r[i] == rs[i].consumerId
    decreases |rs|
  {
    if rs == [] then [] else [rs[0].consumerId] + RecommendationIds(rs[1..])
  }

  function ActionIds(acts: seq<LoadAction>): (r: seq<string>)
    ensures |r| == |acts| && forall i :: 0 <= i < |acts| ==> r[i] == acts[i].consumerId
    decreases |acts|
  {
    if acts == [] then [] else [acts[0].consumerId] + ActionIds(acts[1..])
  }

  /** Each recommendation is that of a consumer with flexible demand. */
  lemma {:induction false} RecommendSound(cs: seq<ConsumerView>)
    ensures forall i :: 0 <= i < |Recommend(cs)| ==>
              exists j :: 0 <= j < |cs| && Recommend(cs)[i] == RecommendationOf(cs[j]) && cs[j].FlexibleDemand() > 0.0
    decreases |cs|
  {
    if cs != [] {
      var rest := Recommend(cs[1..]);
      RecommendSound(cs[1..]);
      var head := if cs[0].FlexibleDemand() > 0.0 then [RecommendationOf(cs[0])] else [];
      var r := Recommend(cs);
      assert r == head + rest;
      forall i | 0 <= i < |r|
        ensures exists j :: 0 <= j < |cs| && r[i] == RecommendationOf(cs[j]) && cs[j].FlexibleDemand() > 0.0
      {
        if i < |head| {
          assert r[i] == RecommendationOf(cs[0]);
        } else {
          assert r[i] == rest[i - |head|];
          var j :| 0 <= j < |cs[1..]| && rest[i - |head|] == RecommendationOf(cs[1..][j]) && cs[1..][j].FlexibleDemand() > 0.0;
          assert cs[1..][j] == cs[j + 1];
        }
      }
    } else {
      assert Recommend(cs) == [];
    }
  }

  /** Each consumer with flexible demand has its recommendation. */
  lemma {:induction false} RecommendComplete(cs: seq<ConsumerView>)
    ensures forall j :: 0 <= j < |cs| && cs[j].FlexibleDemand() > 0.0 ==> RecommendationOf(cs[j]) in Recommend(cs)
    decreases |cs|
  {
    if cs != [] {
      RecommendComplete(cs[1..]);
      forall j | 0 <= j < |cs| && cs[j].FlexibleDemand() > 0.0 ensures RecommendationOf(cs[j]) in Recommend(cs) {
        if j > 0 {
          assert cs[j] == cs[1..][j - 1];
        }
      }
    }
  }

  /** The recommendations keep the order of the consumers. */
  lemma {:induction false} RecommendOrder(cs: seq<ConsumerView>)
    ensures Subsequence(RecommendationIds(Recommend(cs)), ConsumerIds(cs))
    decreases |cs|
  {
    if cs != [] {
      var rest := Recommend(cs[1..]);
      RecommendOrder(cs[1..]);
      assert ConsumerIds(cs)[1..] == ConsumerIds(cs[1..]);
      var r := Recommend(cs);
      if cs[0].FlexibleDemand() > 0.0 {
        assert RecommendationIds(r)[1..] == RecommendationIds(rest);
      } else {
        assert r == rest;
        assert r != [] ==> ConsumerIds(cs) != [];
      }
    }
  }

  /** A bound on the consumers' priorities bounds the recommendations'. */
  lemma {:induction false} RecommendBounded(cs: seq<ConsumerView>, p: int)
    requires forall i :: 0 <= i < |cs| ==> cs[i].priority <= p
    ensures forall i :: 0 <= i < |Recommend(cs)| ==> Recommend(cs)[i].priority <= p
    decreases |cs|
  {
    if cs != [] {
      assert forall i :: 0 <= i < |cs[1..]| ==> cs[1..][i] == cs[i + 1];
      RecommendBounded(cs[1..], p);
    }
  }

  /** Non-increasing priorities survive the filter. */
  lemma {:induction false} RecommendPriority(cs: seq<ConsumerView>)
    requires forall i, j :: 0 <= i < j < |cs| ==> cs[i].priority >= cs[j].priority
    ensures forall i, j :: 0 <= i < j < |Recommend(cs)| ==> Recommend(cs)[i].priority >= Recommend(cs)[j].priority
    decreases |cs|
  {
    if cs != [] {
      var tail := cs[1..];
      assert forall i :: 0 <= i < |tail| ==> tail[i] == cs[i + 1];
      RecommendPriority(tail);
      RecommendBounded(tail, cs[0].priority);
      var rest := Recommend(tail);
      var r := Recommend(cs);
      if cs[0].FlexibleDemand() > 0.0 {
        assert r == [RecommendationOf(cs[0])] + rest;
      } else {
        assert r == rest;
      }
    }
  }

  /** `prioritize_loads` keeps exactly the consumers with positive flexible
      demand `current_demand * flexibility`: each recommendation is that of
      such a consumer, and each such consumer has one. */
  lemma PrioritizeLoadsMembers(cs: seq<ConsumerView>, r: seq<Recommendation>)
    requires r == PrioritizeLoads(cs)
    ensures forall i :: 0 <= i < |r| ==>
              exists j :: 0 <= j < |cs| && r[i] == RecommendationOf(cs[j]) && cs[j].FlexibleDemand() > 0.0
    ensures forall j :: 0 <= j < |cs| && cs[j].FlexibleDemand() > 0.0 ==> RecommendationOf(cs[j]) in r
  {
    var s := SortBy(cs, LoadKey);
    SortByCorrect(cs, LoadKey);
    RecommendSound(s);
    RecommendComplete(s);
    forall i | 0 <= i < |r|
      ensures exists j :: 0 <= j < |cs| && r[i] == RecommendationOf(cs[j]) && cs[j].FlexibleDemand() > 0.0
    {
      var m :| 0 <= m < |s| && r[i] == RecommendationOf(s[m]) && s[m].FlexibleDemand() > 0.0;
      assert s[m] in multiset(s);
      assert s[m] in cs;
      var j :| 0 <= j < |cs| && cs[j] == s[m];
    }
    forall j | 0 <= j < |cs| && cs[j].FlexibleDemand() > 0.0 ensures RecommendationOf(cs[j]) in r {
      assert cs[j] in multiset(cs);
      assert cs[j] in s;
      var m :| 0 <= m < |s| && s[m] == cs[j];
    }
  }

  /** `prioritize_loads` takes the consumers in ascending
      `(-priority, -flexibility)` order, equal keys in registration order, so
      priorities never increase along the result. */
  lemma PrioritizeLoadsOrder(cs: seq<ConsumerView>, r: seq<Recommendation>)
    requires r == PrioritizeLoads(cs)
    ensures forall i, j :: 0 <= i < j < |r| ==> r[i].priority >= r[j].priority
    ensures SortedBy(SortBy(cs, LoadKey), LoadKey)
    ensures forall k :: WithKey(SortBy(cs, LoadKey), LoadKey, k) == WithKey(cs, LoadKey, k)
    ensures Subsequence(RecommendationIds(r), ConsumerIds(SortBy(cs, LoadKey)))
  {
    var s := SortBy(cs, LoadKey);
    SortByCorrect(cs, LoadKey);
    forall k ensures WithKey(s, LoadKey, k) == WithKey(cs, LoadKey, k) {
      SortByStable(cs, LoadKey, k);
    }
    assert forall i, j :: 0 <= i < j < |s| ==> s[i].priority >= s[j].priority by {
      forall i, j | 0 <= i < j < |s| ensures s[i].priority >= s[j].priority {
        assert KeyLe(LoadKey(s[i]), LoadKey(s[j]));
      }
    }
    RecommendOrder(s);
    RecommendPriority(s);
  }

  /** Consumers with distinct ids give recommendations with distinct ids. */
  lemma PrioritizeLoadsDistinct(cs: seq<ConsumerView>, r: seq<Recommendation>)
    requires r == PrioritizeLoads(cs)
    requires Distinct(ConsumerIds(cs))
    ensures Distinct(RecommendationIds(r))
  {
    var s := SortBy(cs, LoadKey);
    var f := (c: ConsumerView) => c.id;
    SortByDistinctBy(cs, LoadKey, f);
    assert Distinct(ConsumerIds(s)) by {
      forall i, j | 0 <= i < j < |ConsumerIds(s)| ensures ConsumerIds(s)[i] != ConsumerIds(s)[j] {
        assert f(s[i]) != f(s[j]);
      }
    }
    RecommendOrder(s);
    SubsequenceDistinct(RecommendationIds(r), ConsumerIds(s));
  }

  /** The shedding walk over the recommendations: stop once the deficit is
      covered, otherwise shed `min(flexible_demand, remaining)`. */
  function Shed(recs: seq<Recommendation>, remaining: real): seq<LoadAction>
    decreases |recs|
  {
    if recs == [] || remaining <= 0.0 then []
    else
      var reduction := Min(recs[0].flexibleDemand, remaining);
      if reduction > 0.0 then
        [LoadAction(recs[0].consumerId, recs[0].category, reduction)] + Shed(recs[1..], remaining - reduction)
      else Shed(recs[1..], remaining)
  }

  /** Shedding happens only on a negative balance, against its magnitude. */
  function Shedding(cs: seq<ConsumerView>, balance: real): seq<LoadAction> {
    if balance < 0.0 then Shed(PrioritizeLoads(cs), -balance) else []
  }

  function TotalReduction(acts: seq<LoadAction>): real
    decreases |acts|
  {
    if acts == [] then 0.0 else acts[0].reduction + TotalReduction(acts[1..])
  }

  /** A reduction that respects recommendation `r`: same consumer, positive,
      at most the flexible demand. */
  predicate ShedFits(act: LoadAction, r: Recommendation) {
    act.consumerId == r.consumerId && act.category == r.category
    && 0.0 < act.reduction <= r.flexibleDemand
  }

  /** Every reduction respects some recommendation. */
  lemma {:induction false} ShedWithinRecommendations(recs: seq<Recommendation>, remaining: real)
    ensures forall i :: 0 <= i < |Shed(recs, remaining)| ==>
              exists j :: 0 <= j < |recs| && ShedFits(Shed(recs, remaining)[i], recs[j])
    decreases |recs|
  {
    if recs != [] && remaining > 0.0 {
      var reduction := Min(recs[0].flexibleDemand, remaining);
      var rem' := if reduction > 0.0 then remaining - reduction else remaining;
      var rest := Shed(recs[1..], rem');
      ShedWithinRecommendations(recs[1..], rem');
      var acts := Shed(recs, remaining);
      var head := if reduction > 0.0 then [LoadAction(recs[0].consumerId, recs[0].category, reduction)] else [];
      assert acts == head + rest;
      forall i | 0 <= i < |acts| ensures exists j :: 0 <= j < |recs| && ShedFits(acts[i], recs[j]) {
        if i < |head| {
          assert ShedFits(acts[0], recs[0]);
        } else {
          assert acts[i] == rest[i - |head|];
          var j :| 0 <= j < |recs[1..]| && ShedFits(rest[i - |head|], recs[1..][j]);
          assert recs[1..][j] == recs[j + 1];
        }
      }
    }
  }

  /** The reductions follow the recommendations' order, at most one each. */
  lemma {:induction false} ShedInOrder(recs: seq<Recommendation>, remaining: real)
    ensures Subsequence(ActionIds(Shed(recs, remaining)), RecommendationIds(recs))
    decreases |recs|
  {
    if recs != [] && remaining > 0.0 {
      var reduction := Min(recs[0].flexibleDemand, remaining);
      var rem' := if reduction > 0.0 then remaining - reduction else remaining;
      var rest := Shed(recs[1..], rem');
      ShedInOrder(recs[1..], rem');
      assert RecommendationIds(recs)[1..] == RecommendationIds(recs[1..]);
      var acts := Shed(recs, remaining);
      if reduction > 0.0 {
        assert acts == [LoadAction(recs[0].consumerId, recs[0].category, reduction)] + rest;
        assert ActionIds(acts)[1..] == ActionIds(rest);
      } else {
        assert acts == rest;
        assert acts != [] ==> RecommendationIds(recs) != [];
      }
    } else {
      assert Shed(recs, remaining) == [];
    }
  }

  /** The total shed is non-negative and at most the deficit. */
  lemma {:induction false} ShedTotal(recs: seq<Recommendation>, remaining: real)
    ensures 0.0 <= TotalReduction(Shed(recs, remaining))
    ensures remaining > 0.0 ==> TotalReduction(Shed(recs, remaining)) <= remaining
    decreases |recs|
  {
    if recs != [] && remaining > 0.0 {
      var reduction := Min(recs[0].flexibleDemand, remaining);
      var rem' := if reduction > 0.0 then remaining - reduction else remaining;
      var rest := Shed(recs[1..], rem');
      ShedTotal(recs[1..], rem');
      var acts := Shed(recs, remaining);
      if reduction > 0.0 {
        assert acts == [LoadAction(recs[0].consumerId, recs[0].category, reduction)] + rest;
        assert acts[1..] == rest;
        assert rem' <= 0.0 ==> rest == [];
      } else {
        assert acts == rest;
      }
    }
  }

  /** A 12 kW deficit over a critical consumer registered first and a
      flexible one: the less critical consumer gives all of its 10 kW of
      flexible demand, then the critical one the remaining 2 kW. */
  lemma SheddingExample()
    ensures
      var critical := ConsumerView("hospital", "medical", 40.0, 0.1, 1);
      var flexible := ConsumerView("pool", "leisure", 20.0, 0.5, 5);
      Shedding([critical, flexible], -12.0)
        == [LoadAction("pool", "leisure", 10.0), LoadAction("hospital", "medical", 2.0)]
  {
    var critical := ConsumerView("hospital", "medical", 40.0, 0.1, 1);
    var flexible := ConsumerView("pool", "leisure", 20.0, 0.5, 5);
    assert SortBy([critical, flexible], LoadKey) == [flexible, critical] by {
      assert [critical, flexible][1..] == [flexible];
      assert SortBy([flexible], LoadKey) == [flexible] by {
        assert [flexible][1..] == [];
      }
      assert InsertBy(critical, [flexible], LoadKey) == [flexible] + InsertBy(critical, [], LoadKey);
    }
    var rf := RecommendationOf(flexible);
    var rc := RecommendationOf(critical);
    assert PrioritizeLoads([critical, flexible]) == [rf, rc] by {
      assert [flexible, critical][1..] == [critical];
      assert Recommend([critical]) == [rc] by {
        assert [critical][1..] == [];
      }
    }
    assert rf.flexibleDemand == 10.0 && rc.flexibleDemand == 4.0;
    assert Shed([rf, rc], 12.0) == [LoadAction("pool", "leisure", 10.0)] + Shed([rc], 2.0) by {
      assert [rf, rc][1..] == [rc];
    }
    assert Shed([rc], 2.0) == [LoadAction("hospital", "medical", 2.0)] by {
      assert [rc][1..] == [];
    }
  }

  /** A reduction of consumer `c`: positive, at most its flexible demand,
      and leaving a non-negative demand when the flexibility is a fraction. */
  predicate ReductionFits(act: LoadAction, c: ConsumerView) {
    act.consumerId == c.id
    && 0.0 < act.reduction <= c.currentDemand * c.flexibility
    && (0.0 <= c.currentDemand && 0.0 <= c.flexibility <= 1.0 ==> c.currentDemand - act.reduction >= 0.0)
  }

  lemma FractionBound(demand: real, flexibility: real, reduction: real)
    requires reduction <= demand * flexibility
    ensures 0.0 <= demand && 0.0 <= flexibility <= 1.0 ==> demand - reduction >= 0.0
  {
    if 0.0 <= demand && 0.0 <= flexibility <= 1.0 {
      assert demand * flexibility <= demand * 1.0;
    }
  }

  lemma FitsRecommendation(act: LoadAction, c: ConsumerView)
    requires ShedFits(act, RecommendationOf(c))
    ensures ReductionFits(act, c)
  {
    FractionBound(c.currentDemand, c.flexibility, act.reduction);
  }

  /** Nothing is shed unless the balance is negative, the consumers are
      visited in prioritised order, and the total shed is at most the
      deficit. */
  lemma SheddingTotal(cs: seq<ConsumerView>, balance: real, acts: seq<LoadAction>)
    requires acts == Shedding(cs, balance)
    ensures balance >= 0.0 ==> acts == []
    ensures 0.0 <= TotalReduction(acts)
    ensures balance < 0.0 ==> TotalReduction(acts) <= -balance
    ensures Subsequence(ActionIds(acts), RecommendationIds(PrioritizeLoads(cs)))
  {
    if balance < 0.0 {
      ShedTotal(PrioritizeLoads(cs), -balance);
      ShedInOrder(PrioritizeLoads(cs), -balance);
    }
  }

  /** What a recommendation offers to shed: its flexible demand when positive. */
  function Sheddable(r: Recommendation): real {
    Pos(r.flexibleDemand)
  }

  /** What a consumer could shed: its flexible demand when positive. */
  function FlexibleLoad(c: ConsumerView): real {
    Pos(c.FlexibleDemand())
  }

  lemma {:induction false} SheddableNonneg(recs: seq<Recommendation>)
    ensures SumBy(recs, Sheddable) >= 0.0
    decreases |recs|
  {
    if recs != [] {
      SheddableNonneg(recs[1..]);
    }
  }

  /** The shedding walk sheds all it can: the whole deficit, or all the
      flexible demand on offer when that is less. */
  lemma {:induction false} ShedAmount(recs: seq<Recommendation>, remaining: real)
    requires remaining > 0.0
    ensures TotalReduction(Shed(recs, remaining)) == Min(remaining, SumBy(recs, Sheddable))
    decreases |recs|
  {
    if recs != [] {
      var reduction := Min(recs[0].flexibleDemand, remaining);
      SheddableNonneg(recs[1..]);
      if reduction > 0.0 {
        var rest := Shed(recs[1..], remaining - reduction);
        assert ([LoadAction(recs[0].consumerId, recs[0].category, reduction)] + rest)[1..] == rest;
        if remaining - reduction > 0.0 {
          ShedAmount(recs[1..], remaining - reduction);
        } else {
          assert rest == [];
        }
      } else {
        ShedAmount(recs[1..], remaining);
      }
    }
  }

  /** The recommendations offer all the flexible demand of the consumers. */
  lemma {:induction false} RecommendLoad(cs: seq<ConsumerView>)
    ensures SumBy(Recommend(cs), Sheddable) == SumBy(cs, FlexibleLoad)
    decreases |cs|
  {
    if cs != [] {
      RecommendLoad(cs[1..]);
      var rest := Recommend(cs[1..]);
      if cs[0].FlexibleDemand() > 0.0 {
        assert ([RecommendationOf(cs[0])] + rest)[1..] == rest;
      } else {
        assert Recommend(cs) == rest;
      }
    }
  }

  /** On a deficit the total shed is the smaller of the deficit and the
      consumers' summed flexible demand. */
  lemma SheddingAmount(cs: seq<ConsumerView>, balance: real)
    requires balance < 0.0
    ensures TotalReduction(Shedding(cs, balance)) == Min(-balance, SumBy(cs, FlexibleLoad))
  {
    ShedAmount(PrioritizeLoads(cs), -balance);
    RecommendLoad(SortBy(cs, LoadKey));
    SortBySum(cs, LoadKey, FlexibleLoad);
  }

  /** Every reduction is positive, at most the consumer's
      `current_demand * flexibility`, and leaves a non-negative demand when
      the flexibility is a fraction. */
  lemma SheddingFits(cs: seq<ConsumerView>, balance: real, acts: seq<LoadAction>)
    requires acts == Shedding(cs, balance)
    ensures forall i :: 0 <= i < |acts| ==> exists j :: 0 <= j < |cs| && ReductionFits(acts[i], cs[j])
  {
    if balance < 0.0 {
      var r := PrioritizeLoads(cs);
      ShedWithinRecommendations(r, -balance);
      PrioritizeLoadsMembers(cs, r);
      forall i | 0 <= i < |acts| ensures exists j :: 0 <= j < |cs| && ReductionFits(acts[i], cs[j]) {
        var m :| 0 <= m < |r| && ShedFits(acts[i], r[m]);
        FitsSomeConsumer(acts[i], r[m], cs);
      }
    }
  }

  lemma FitsSomeConsumer(act: LoadAction, rec: Recommendation, cs: seq<ConsumerView>)
    requires ShedFits(act, rec)
    requires exists j :: 0 <= j < |cs| && rec == RecommendationOf(cs[j]) && cs[j].FlexibleDemand() > 0.0
    ensures exists j :: 0 <= j < |cs| && ReductionFits(act, cs[j])
  {
    var j :| 0 <= j < |cs| && rec == RecommendationOf(cs[j]) && cs[j].FlexibleDemand() > 0.0;
    FitsRecommendation(act, cs[j]);
  }

  /** At most one reduction per consumer. */
  lemma SheddingDistinct(cs: seq<ConsumerView>, balance: real, acts: seq<LoadAction>)
    requires acts == Shedding(cs, balance)
    requires Distinct(ConsumerIds(cs))
    ensures Distinct(ActionIds(acts))
  {
    if balance < 0.0 {
      var r := PrioritizeLoads(cs);
      ShedInOrder(r, -balance);
      PrioritizeLoadsDistinct(cs, r);
      SubsequenceDistinct(ActionIds(acts), RecommendationIds(r));
    }
  }
}
