/** What the chart and the "At a Glance" indicators show: the rows of the
    freshly fetched series whose Year and Month are picked, and the fields of
    the series' last row. */
module Projection {
  import opened Bars
  import opened Universe

  /** The row mask of the chart: the row's Year and Month are both picked
      (`isin` tests membership, so order and repeats of the picks do not matter). */
  predicate Keep(b: Bar, years: seq<int>, months: seq<int>)
  {
    b.year in years && b.month in months
  }

  /** `df[df['Year'].isin(selected_year) & df['Month'].isin(selected_month)]`. */
  function Filter(series: seq<Bar>, years: seq<int>, months: seq<int>): (r: seq<Bar>)
    ensures |r| <= |series|
    ensures forall b :: b in r ==> b in series && Keep(b, years, months)
  {
    if series == [] then []
    else (if Keep(series[0], years, months) then [series[0]] else []) + Filter(series[1..], years, months)
  }

  /** The indices below `n` of the rows that pass the mask, in increasing order. */
  function KeptIndices(series: seq<Bar>, years: seq<int>, months: seq<int>, n: nat): (idx: seq<nat>)
    requires n <= |series|
    ensures forall k :: 0 <= k < |idx| ==> idx[k] < n
    ensures forall i, j :: 0 <= i < j < |idx| ==> idx[i] < idx[j]
    ensures forall i :: 0 <= i < n ==> (i in idx <==> Keep(series[i], years, months))
  {
    if n == 0 then []
    else KeptIndices(series, years, months, n - 1) + (if Keep(series[n - 1], years, months) then [n - 1] else [])
  }

  /** The chart is the series read at the kept indices: exactly the rows that
      pass the mask, each once, in the order of the series. */
  lemma FilterIsKeptRows(series: seq<Bar>, years: seq<int>, months: seq<int>)
    ensures |Filter(series, years, months)| == |KeptIndices(series, years, months, |series|)|
    ensures forall k :: 0 <= k < |KeptIndices(series, years, months, |series|)| ==>
              Filter(series, years, months)[k] == series[KeptIndices(series, years, months, |series|)[k]]
  {
    FilterPrefixIsKeptRows(series, years, months, |series|);
    assert series[..|series|] == series;
  }

  lemma {:induction false} FilterPrefixIsKeptRows(series: seq<Bar>, years: seq<int>, months: seq<int>, n: nat)
    requires n <= |series|
    ensures var r, idx := Filter(series[..n], years, months), KeptIndices(series, years, months, n);
            |r| == |idx| && forall k :: 0 <= k < |idx| ==> r[k] == series[idx[k]]
  {
    if n > 0 {
      var x := series[n - 1];
      FilterPrefixIsKeptRows(series, years, months, n - 1);
      assert series[..n] == series[..n - 1] + [x];
      FilterConcat(series[..n - 1], [x], years, months);
      assert [x][1..] == [];
    }
  }

  /** A row is charted exactly when it is in the series and passes the mask. */
  lemma {:induction false} FilterMembership(series: seq<Bar>, years: seq<int>, months: seq<int>, b: Bar)
    ensures b in Filter(series, years, months) <==> b in series && Keep(b, years, months)
    decreases |series|
  {
    if series != [] {
      FilterMembership(series[1..], years, months, b);
      assert series == [series[0]] + series[1..];
    }
  }

  /** Each row is charted as many times as it occurs in the series if it passes
      the mask, and not at all otherwise. */
  lemma {:induction false} FilterCount(series: seq<Bar>, years: seq<int>, months: seq<int>, b: Bar)
    ensures multiset(Filter(series, years, months))[b]
         == if Keep(b, years, months) then multiset(series)[b] else 0
    decreases |series|
  {
    if series != [] {
      FilterCount(series[1..], years, months, b);
      assert series == [series[0]] + series[1..];
    }
  }

  /** Filtering a concatenation filters each part. With `Filter([x]) == [x]`
      for a kept row and `[]` otherwise, this determines the filter. */
  lemma {:induction false} FilterConcat(a: seq<Bar>, c: seq<Bar>, years: seq<int>, months: seq<int>)
    ensures Filter(a + c, years, months) == Filter(a, years, months) + Filter(c, years, months)
    decreases |a|
  {
    if a != [] {
      assert (a + c)[0] == a[0];
      assert (a + c)[1..] == a[1..] + c;
      FilterConcat(a[1..], c, years, months);
    } else {
      assert a + c == c;
    }
  }

  /** With no year or no month picked the chart is empty: an empty pick means none. */
  lemma {:induction false} FilterEmptySelection(series: seq<Bar>, years: seq<int>, months: seq<int>)
    requires years == [] || months == []
    ensures Filter(series, years, months) == []
    decreases |series|
  {
    if series != [] {
      FilterEmptySelection(series[1..], years, months);
    }
  }

  /** Picks that no row matches give an empty chart. */
  lemma {:induction false} FilterNoMatch(series: seq<Bar>, years: seq<int>, months: seq<int>)
    requires forall b :: b in series ==> !Keep(b, years, months)
    ensures Filter(series, years, months) == []
    decreases |series|
  {
    if series != [] {
      assert series[0] in series;
      assert forall b :: b in series[1..] ==> b in series;
      FilterNoMatch(series[1..], years, months);
    }
  }

  /** Picks covering every row's year and month chart the whole series. */
  lemma {:induction false} FilterAllMatch(series: seq<Bar>, years: seq<int>, months: seq<int>)
    requires forall b :: b in series ==> Keep(b, years, months)
    ensures Filter(series, years, months) == series
    decreases |series|
  {
    if series != [] {
      assert series[0] in series;
      assert forall b :: b in series[1..] ==> b in series;
      FilterAllMatch(series[1..], years, months);
      assert series == [series[0]] + series[1..];
    }
  }

  /** Picking every year and month the checklists offer charts the whole series
      from which the checklists were built. */
  lemma FilterWithOwnOptions(series: seq<Bar>)
    ensures Filter(series, YearOptions(series), MonthOptions(series)) == series
  {
    var ys, ms := YearOptions(series), MonthOptions(series);
    forall b | b in series ensures Keep(b, ys, ms) {
      assert b.year in Elements(ys);
      assert b.month in Elements(ms);
    }
    FilterAllMatch(series, ys, ms);
  }

  /** The checklists are built once from the start-up series. A series fetched
      later with a year or month outside them is not charted whole even with
      "All" ticked on both dimensions. */
  lemma FrozenOptionsMissNewRows(initial: seq<Bar>, fetched: seq<Bar>, b: Bar)
    requires b in fetched
    requires b.year !in Elements(YearOptions(initial)) || b.month !in Elements(MonthOptions(initial))
    ensures Filter(fetched, YearOptions(initial), MonthOptions(initial)) != fetched
  {
  }

  /** Only the set of picks matters to the chart. */
  lemma {:induction false} FilterDependsOnSetsOnly(series: seq<Bar>, y1: seq<int>, m1: seq<int>,
                                                   y2: seq<int>, m2: seq<int>)
    requires Elements(y1) == Elements(y2) && Elements(m1) == Elements(m2)
    ensures Filter(series, y1, m1) == Filter(series, y2, m2)
    decreases |series|
  {
    if series != [] {
      var b := series[0];
      assert b.year in y1 <==> b.year in Elements(y1);
      assert b.year in y2 <==> b.year in Elements(y2);
      assert b.month in m1 <==> b.month in Elements(m1);
      assert b.month in m2 <==> b.month in Elements(m2);
      FilterDependsOnSetsOnly(series[1..], y1, m1, y2, m2);
    }
  }

  /** Filtering twice with the same picks is filtering once. */
  lemma {:induction false} FilterIdempotent(series: seq<Bar>, years: seq<int>, months: seq<int>)
    ensures Filter(Filter(series, years, months), years, months) == Filter(series, years, months)
  {
    var r := Filter(series, years, months);
    FilterAllMatch(r, years, months);
  }

  /** An "At a Glance" value: column `c` of the last row of the series, or no
      data when the series is empty (where the source's `values[-1]` raises). */
  function Indicator(series: seq<Bar>, c: Column): (r: Option<int>)
    ensures r.None? <==> series == []
    ensures r.Some? ==> r.value == Field(series[|series| - 1], c)
  {
    if series == [] then None else Some(Field(series[|series| - 1], c))
  }

  /** The indicator is decided by the newest row alone. */
  lemma IndicatorIsNewestRow(older: seq<Bar>, newest: Bar, c: Column)
    ensures Indicator(older + [newest], c) == Some(Field(newest, c))
  {
  }

  /** Rows before the most recent ones do not affect the indicator. */
  lemma IndicatorIgnoresHistory(older: seq<Bar>, recent: seq<Bar>, c: Column)
    requires recent != []
    ensures Indicator(older + recent, c) == Indicator(recent, c)
  {
  }

  /** The two-row example: picking 2020 and January charts only the January
      row (close 100), while the Close indicator still shows the February row
      (close 110), the last row of the unfiltered series. */
  lemma TwoRowScenario(o: int, h: int, l: int, v: int)
    ensures var jan := Bar(2020, 1, o, h, l, 100, v);
            var feb := Bar(2020, 2, o, h, l, 110, v);
            var series := [jan, feb];
            && Filter(series, [2020], [1]) == [jan]
            && Filter(series, [2020], [1])[0].close == 100
            && Indicator(series, Close) == Some(110)
            && Indicator(Filter(series, [2020], [1]), Close) != Indicator(series, Close)
  {
  }
}
