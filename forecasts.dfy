/** Forecast tables of producers and consumers and the nearest-timestamp
    lookup `get_forecast` that both entity kinds share. A table is the
    Python dict `{timestamp: kW}` as a sequence of entries in insertion order;
    timestamps are integer seconds. */
module Forecasts {

  datatype Entry = Entry(time: int, kw: real)

  function Distance(a: int, b: int): nat {
    if a >= b then a - b else b - a
  }

  /** A dict never holds one key twice. */
  predicate DistinctTimes(f: seq<Entry>) {
    forall i, j :: 0 <= i < j < |f| ==> f[i].time != f[j].time
  }

  /** `str(t) in forecast`. */
  predicate HasTime(f: seq<Entry>, t: int)
    decreases |f|
  {
    f != [] && (f[0].time == t || HasTime(f[1..], t))
  }

  /** `forecast[t]`: the value of the first entry with time `t`. */
  function ValueAt(f: seq<Entry>, t: int): real
    decreases |f|
  {
    if f == [] then 0.0 else if f[0].time == t then f[0].kw else ValueAt(f[1..], t)
  }

  /** The index `min` picks when scanning the table with key |k - t|: a later
      entry replaces the best so far only when it is strictly closer, so the
      first of several equally close entries wins. */
  function NearestIndex(f: seq<Entry>, t: int): (i: nat)
    requires |f| > 0
    ensures i < |f|
    decreases |f|
  {
    if |f| == 1 then 0
    else
      var k := NearestIndex(f[..|f| - 1], t);
      if Distance(f[|f| - 1].time, t) < Distance(f[k].time, t) then |f| - 1 else k
  }

  /** `get_forecast(t)`: the exact entry when `t` is a key, 0 for an empty
      table, otherwise the value at the first entry nearest to `t`. */
  function ForecastAt(f: seq<Entry>, t: int): real {
    if HasTime(f, t) then ValueAt(f, t)
    else if |f| == 0 then 0.0
    else f[NearestIndex(f, t)].kw
  }

  /** The key test is membership among the entries' times. */
  lemma {:induction false} HasTimeIff(f: seq<Entry>, t: int)
    ensures HasTime(f, t) <==> exists i :: 0 <= i < |f| && f[i].time == t
    decreases |f|
  {
    if f != [] {
      HasTimeIff(f[1..], t);
      if exists i :: 0 <= i < |f| && f[i].time == t {
        var i :| 0 <= i < |f| && f[i].time == t;
        if i > 0 {
          assert f[1..][i - 1] == f[i];
        }
      }
      if HasTime(f[1..], t) {
        var i :| 0 <= i < |f[1..]| && f[1..][i].time == t;
        assert f[i + 1] == f[1..][i];
      }
    }
  }

  /** For a present key the value is that of the key's first entry. */
  lemma {:induction false} ValueAtFirst(f: seq<Entry>, t: int, i: nat)
    requires i < |f| && f[i].time == t
    requires forall j :: 0 <= j < i ==> f[j].time != t
    ensures ValueAt(f, t) == f[i].kw
    decreases |f|
  {
    if i > 0 {
      assert forall j :: 0 <= j < i - 1 ==> f[1..][j] == f[j + 1];
      ValueAtFirst(f[1..], t, i - 1);
    }
  }

  /** For a present key the value is that of an entry with the key. */
  lemma {:induction false} ValueAtPresent(f: seq<Entry>, t: int)
    requires HasTime(f, t)
    ensures exists i :: 0 <= i < |f| && f[i].time == t && ValueAt(f, t) == f[i].kw
    decreases |f|
  {
    if f[0].time != t {
      ValueAtPresent(f[1..], t);
      var i :| 0 <= i < |f[1..]| && f[1..][i].time == t && ValueAt(f[1..], t) == f[1..][i].kw;
      assert f[i + 1] == f[1..][i];
    }
  }

  /** The scan finds an entry no farther from `t` than any other, and no
      earlier entry is as close. */
  lemma {:induction false} NearestIndexMinimal(f: seq<Entry>, t: int)
    requires |f| > 0
    ensures forall j :: 0 <= j < |f| ==> Distance(f[NearestIndex(f, t)].time, t) <= Distance(f[j].time, t)
    ensures forall j :: 0 <= j < NearestIndex(f, t) ==> Distance(f[NearestIndex(f, t)].time, t) < Distance(f[j].time, t)
    decreases |f|
  {
    if |f| > 1 {
      var g := f[..|f| - 1];
      NearestIndexMinimal(g, t);
      assert forall j :: 0 <= j < |g| ==> g[j] == f[j];
    }
  }

  /** In a table with distinct times the value for a present key is that
      key's value, whatever the order of the table. */
  lemma ForecastExact(f: seq<Entry>, t: int, i: nat)
    requires DistinctTimes(f)
    requires i < |f| && f[i].time == t
    ensures ForecastAt(f, t) == f[i].kw
  {
    HasTimeIff(f, t);
    ValueAtFirst(f, t, i);
  }

  /** What `get_forecast` promises: 0 for an empty table; the entry's value
      for a key that is present (in a table with distinct keys); otherwise
      the value of an entry nearest in time, and the first such entry when
      the key is absent. */
  lemma ForecastAtSpec(f: seq<Entry>, t: int)
    ensures |f| == 0 ==> ForecastAt(f, t) == 0.0
    ensures forall i :: 0 <= i < |f| && f[i].time == t && DistinctTimes(f) ==> ForecastAt(f, t) == f[i].kw
    ensures |f| > 0 ==>
              exists i :: 0 <= i < |f| && ForecastAt(f, t) == f[i].kw
                && forall j :: 0 <= j < |f| ==> Distance(f[i].time, t) <= Distance(f[j].time, t)
    ensures (forall i :: 0 <= i < |f| ==> f[i].time != t) && |f| > 0 ==>
              exists i :: 0 <= i < |f| && ForecastAt(f, t) == f[i].kw
                && (forall j :: 0 <= j < |f| ==> Distance(f[i].time, t) <= Distance(f[j].time, t))
                && (forall j :: 0 <= j < i ==> Distance(f[i].time, t) < Distance(f[j].time, t))
  {
    HasTimeIff(f, t);
    forall i | 0 <= i < |f| && f[i].time == t && DistinctTimes(f) ensures ForecastAt(f, t) == f[i].kw {
      ForecastExact(f, t, i);
    }
    if HasTime(f, t) {
      ValueAtPresent(f, t);
      var i :| 0 <= i < |f| && f[i].time == t && ValueAt(f, t) == f[i].kw;
      assert Distance(f[i].time, t) == 0;
    } else if |f| > 0 {
      NearestIndexMinimal(f, t);
      var i := NearestIndex(f, t);
      assert ForecastAt(f, t) == f[i].kw;
    }
  }

  /** The exact-key branch of `get_forecast` agrees with the nearest-key scan:
      an exact key is the unique entry at distance 0. */
  lemma {:induction false} ExactIsNearest(f: seq<Entry>, t: int)
    requires DistinctTimes(f) && |f| > 0
    ensures ForecastAt(f, t) == f[NearestIndex(f, t)].kw
  {
    HasTimeIff(f, t);
    if HasTime(f, t) {
      var i :| 0 <= i < |f| && f[i].time == t;
      var k := NearestIndex(f, t);
      NearestIndexMinimal(f, t);
      assert Distance(f[k].time, t) <= Distance(f[i].time, t) == 0;
      assert f[k].time == t;
      ForecastExact(f, t, i);
      assert k == i;
    }
  }
}
