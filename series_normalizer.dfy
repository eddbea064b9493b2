// The series normaliser `processData` (App.jsx): filters the API records,
// sorts them by timestamp, extracts the year and value of each, and derives
// the growth rates.

module SeriesNormalizer {
  import opened Observations
  import opened TimeSort
  import opened GrowthRate

  /** The three parallel arrays `processData` returns. */
  datatype Series = Series(dates: seq<int>, values: seq<real>, growthRates: seq<Rate>)

  /**
   * The year of a timestamp never decreases as the timestamp grows; this is
   * what `getFullYear` does for a fixed time zone.
   */
  ghost predicate Monotone(year: int -> int) {
    forall a, b :: a <= b ==> year(a) <= year(b)
  }

  /** The filtered and sorted records (`filteredData`). */
  function SortedRecords(gdpData: seq<Observation>): (sorted: seq<Observation>)
    ensures SortedByTime(sorted)
    ensures |sorted| == |Retained(gdpData)| <= |gdpData|
  {
    SortByTime(Retained(gdpData))
  }

  /**
   * The sorted records are ascending by timestamp and hold every record that
   * names a country as often as the input does and nothing else, with equal
   * timestamps in input order.
   */
  lemma SortedRecordsSpec(gdpData: seq<Observation>)
    ensures SortedByTime(SortedRecords(gdpData))
    ensures |SortedRecords(gdpData)| == |Retained(gdpData)|
    ensures forall o :: multiset(SortedRecords(gdpData))[o] == if HasCountry(o) then multiset(gdpData)[o] else 0
    ensures forall t :: WithTime(SortedRecords(gdpData), t) == WithTime(Retained(gdpData), t)
  {
    RetainedCounts(gdpData);
    SortIsStable(Retained(gdpData));
  }

  /** The calendar year of each record (`dates`). */
  function Years(sorted: seq<Observation>, year: int -> int): (dates: seq<int>)
    ensures |dates| == |sorted|
    ensures Monotone(year) && SortedByTime(sorted) ==>
      forall i, j :: 0 <= i < j < |dates| ==> dates[i] <= dates[j]
  {
    seq(|sorted|, i requires 0 <= i < |sorted| => year(sorted[i].dateTime))
  }

  /** The value of each record (`values`). */
  function Values(sorted: seq<Observation>): (values: seq<real>)
    ensures |values| == |sorted|
    ensures forall o :: o in sorted ==> o.value in values
  {
    var values := seq(|sorted|, i requires 0 <= i < |sorted| => sorted[i].value);
    assert forall o :: o in sorted ==> o.value in values by {
      forall o | o in sorted ensures o.value in values {
        var i :| 0 <= i < |sorted| && sorted[i] == o;
        assert values[i] == o.value;
      }
    }
    values
  }

  /** What `processData` returns for the records `gdpData`, given the year of a timestamp. */
  function Normalize(gdpData: seq<Observation>, year: int -> int): (s: Series)
    ensures |s.dates| == |s.values| <= |gdpData|
    ensures s.growthRates == [] <==> gdpData == []
  {
    if gdpData == [] then Series([], [], [])
    else
      var sorted := SortedRecords(gdpData);
      var values := Values(sorted);
      Series(Years(sorted, year), values, GrowthSeries(values))
  }

  /**
   * `processData` itself: the filter, sort and extraction as expressions,
   * the growth rates by the loop of `GrowthRates`. It changes no state.
   */
  method ProcessData(gdpData: seq<Observation>, year: int -> int)
    returns (dates: seq<int>, values: seq<real>, growthRates: seq<Rate>)
    ensures Series(dates, values, growthRates) == Normalize(gdpData, year)
  {
    if gdpData == [] {
      return [], [], [];
    }
    var filteredData := SortedRecords(gdpData);
    dates := Years(filteredData, year);
    values := Values(filteredData);
    growthRates := GrowthRates(values);
  }

  /** An empty payload gives three empty arrays. */
  lemma NormalizeEmptyInput(year: int -> int)
    ensures Normalize([], year) == Series([], [], [])
  {
  }

  /**
   * For a non-empty payload: one date and one value per record that names a
   * country, and growth rates that start with 0 and number one per value,
   * but never fewer than one.
   */
  lemma NormalizeShape(gdpData: seq<Observation>, year: int -> int)
    requires gdpData != []
    ensures |Normalize(gdpData, year).dates| == |Retained(gdpData)|
    ensures |Normalize(gdpData, year).values| == |Retained(gdpData)|
    ensures |Normalize(gdpData, year).growthRates| == if Retained(gdpData) == [] then 1 else |Retained(gdpData)|
    ensures Normalize(gdpData, year).growthRates[0] == Finite(0.0)
  {
  }

  /**
   * A non-empty payload in which no record names a country gives no dates
   * and no values, yet one growth rate, 0: the arrays do not line up.
   */
  lemma NormalizeAllDropped(gdpData: seq<Observation>, year: int -> int)
    requires gdpData != []
    requires forall i :: 0 <= i < |gdpData| ==> !HasCountry(gdpData[i])
    ensures Normalize(gdpData, year) == Series([], [], [Finite(0.0)])
  {
    NothingRetained(gdpData);
  }

  /**
   * Entry `i` of `dates` and `values` comes from the `i`-th sorted record,
   * which names a country and is one of the input records.
   */
  lemma NormalizeEntry(gdpData: seq<Observation>, year: int -> int, i: int)
    requires 0 <= i < |Retained(gdpData)|
    ensures SortedRecords(gdpData)[i] in gdpData && HasCountry(SortedRecords(gdpData)[i])
    ensures Normalize(gdpData, year).dates[i] == year(SortedRecords(gdpData)[i].dateTime)
    ensures Normalize(gdpData, year).values[i] == SortedRecords(gdpData)[i].value
  {
    SortedRecordsSpec(gdpData);
    var sorted := SortedRecords(gdpData);
    var o := sorted[i];
    assert multiset(sorted)[o] > 0;
    assert multiset(gdpData)[o] > 0;
  }

  /** With a monotone year function the dates never decrease. */
  lemma NormalizeDatesAscending(gdpData: seq<Observation>, year: int -> int)
    requires Monotone(year)
    ensures forall i, j :: 0 <= i < j < |Normalize(gdpData, year).dates| ==>
      Normalize(gdpData, year).dates[i] <= Normalize(gdpData, year).dates[j]
  {
    if gdpData != [] {
      SortedRecordsSpec(gdpData);
      var sorted := SortedRecords(gdpData);
      var dates := Normalize(gdpData, year).dates;
      forall i, j | 0 <= i < j < |dates| ensures dates[i] <= dates[j] {
        assert sorted[i].dateTime <= sorted[j].dateTime;
      }
    }
  }

  /**
   * Every growth rate after the first is the percentage change between
   * neighbouring values; it is non-finite exactly when the earlier value is
   * zero.
   */
  lemma NormalizeGrowth(gdpData: seq<Observation>, year: int -> int, i: int)
    requires 1 <= i < |Normalize(gdpData, year).values|
    ensures i < |Normalize(gdpData, year).growthRates|
    ensures Normalize(gdpData, year).growthRates[i] ==
      Growth(Normalize(gdpData, year).values[i - 1], Normalize(gdpData, year).values[i])
    ensures Normalize(gdpData, year).growthRates[i].Finite? <==> Normalize(gdpData, year).values[i - 1] != 0.0
  {
    var s := Normalize(gdpData, year);
    GrowthInverse(s.values[i - 1], s.values[i]);
  }

  /**
   * A record without a country changes nothing, wherever it is placed, as
   * long as the payload holds some other record.
   */
  lemma FalsyRecordIgnored(a: seq<Observation>, x: Observation, b: seq<Observation>, year: int -> int)
    requires !HasCountry(x)
    requires a + b != []
    ensures Normalize(a + [x] + b, year) == Normalize(a + b, year)
  {
    FalsyRecordDropped(a, x, b);
  }

  /**
   * The sorted records are the only sequence that is ascending by timestamp
   * and keeps the filtered input order among equal timestamps, so every
   * stable sort gives them.
   */
  lemma SortedRecordsUnique(gdpData: seq<Observation>, r: seq<Observation>)
    requires SortedByTime(r)
    requires forall t :: WithTime(r, t) == WithTime(Retained(gdpData), t)
    ensures r == SortedRecords(gdpData)
  {
    StableSortIsUnique(Retained(gdpData), r);
  }

  /** A year function for the examples: timestamps counted in whole years. */
  function CalendarYear(t: int): int {
    t
  }

  /** Three records, one without a country and two out of order. */
  lemma ThreeRecordExample()
    ensures Normalize([Observation(Text("Mexico"), 1961, 10.0),
                       Observation(Text("Mexico"), 1960, 5.0),
                       Observation(Absent, 1962, 999.0)], CalendarYear)
         == Series([1960, 1961], [5.0, 10.0], [Finite(0.0), Finite(100.0)])
  {
    var m1 := Observation(Text("Mexico"), 1961, 10.0);
    var m0 := Observation(Text("Mexico"), 1960, 5.0);
    var raw := [m1, m0, Observation(Absent, 1962, 999.0)];
    ThreeRecordSorted(m1, m0, raw);
    TwoRecordSeries(m0, m1, Normalize(raw, CalendarYear), raw);
    assert Growth(5.0, 10.0) == Finite(100.0);
  }

  lemma ThreeRecordSorted(m1: Observation, m0: Observation, raw: seq<Observation>)
    requires m1 == Observation(Text("Mexico"), 1961, 10.0)
    requires m0 == Observation(Text("Mexico"), 1960, 5.0)
    requires raw == [m1, m0, Observation(Absent, 1962, 999.0)]
    ensures SortedRecords(raw) == [m0, m1]
  {
    assert Retained(raw) == [m1, m0] by {
      assert raw[1..] == [m0, Observation(Absent, 1962, 999.0)];
      assert raw[1..][1..] == [Observation(Absent, 1962, 999.0)];
      assert raw[1..][1..][1..] == [];
      assert Retained(raw[1..][1..]) == [];
      assert Retained(raw[1..]) == [m0];
    }
    assert SortByTime([m1, m0]) == [m0, m1] by {
      assert [m1, m0][1..] == [m0];
      assert [m0][1..] == [];
      assert Insert(m1, [m0]) == [m0] + Insert(m1, []);
    }
  }

  /** The output for a payload whose sorted records are `a`, `b`. */
  lemma TwoRecordSeries(a: Observation, b: Observation, s: Series, raw: seq<Observation>)
    requires raw != [] && SortedRecords(raw) == [a, b]
    requires s == Normalize(raw, CalendarYear)
    ensures s == Series([a.dateTime, b.dateTime], [a.value, b.value], [Finite(0.0), Growth(a.value, b.value)])
  {
    var sorted := SortedRecords(raw);
    var values := Values(sorted);
    assert values == [a.value, b.value];
    assert Years(sorted, CalendarYear) == [a.dateTime, b.dateTime];
    var rates := GrowthSeries(values);
    assert rates == [Finite(0.0), Growth(a.value, b.value)];
  }

  /** A zero value followed by a positive one gives an infinite growth rate, not an error. */
  lemma ZeroPredecessorExample()
    ensures Normalize([Observation(Text("Sweden"), 2000, 0.0),
                       Observation(Text("Sweden"), 2001, 10.0)], CalendarYear)
         == Series([2000, 2001], [0.0, 10.0], [Finite(0.0), PosInfinity])
  {
    var s0 := Observation(Text("Sweden"), 2000, 0.0);
    var s1 := Observation(Text("Sweden"), 2001, 10.0);
    TwoRecordSorted(s0, s1);
    TwoRecordSeries(s0, s1, Normalize([s0, s1], CalendarYear), [s0, s1]);
  }

  lemma TwoRecordSorted(s0: Observation, s1: Observation)
    requires s0 == Observation(Text("Sweden"), 2000, 0.0)
    requires s1 == Observation(Text("Sweden"), 2001, 10.0)
    ensures SortedRecords([s0, s1]) == [s0, s1]
  {
    assert [s0, s1][1..] == [s1];
    assert [s1][1..] == [];
    assert Retained([s1]) == [s1];
    assert Retained([s0, s1]) == [s0, s1];
    assert SortByTime([s1]) == [s1];
    assert Insert(s0, [s1]) == [s0, s1];
  }
}
