/**
 * The chart-data pipeline of the dashboard: align the selected series by the
 * state's strategy, and feed a clicked point's label back into the strategy.
 */
module Chart {
  import opened Wrappers
  import opened Sequences
  import opened Model
  import opened Strategies

  // ---------------------------------------------------------------------
  // The assembler

  /** `from` is absent or the empty string, which JavaScript treats as absent. */
  predicate FirstDateStrategy(st: Strategy)
  {
    st.ByDate? && (st.date.None? || st.date.value == "")
  }

  /** The selected countries that the report has all have the same number of days. */
  predicate EqualSeries(report: Report, names: seq<string>)
  {
    forall a, b :: a in names && b in names && a in report && b in report ==> |report[a]| == |report[b]|
  }

  lemma SelectSameLength(report: Report, metric: Metric, names: seq<string>)
    requires EqualSeries(report, names)
    ensures SameLength(Select(report, metric, names))
  {
    var ds := Select(report, metric, names);
    var p := Present(report, names);
    forall i, j | 0 <= i < |ds| && 0 <= j < |ds|
      ensures |ds[i].data| == |ds[j].data|
    {
      assert p[i] in p && p[j] in p;
    }
  }

  /** `toChartData`: the aligned chart data of a state. */
  function ToChartData(s: State): ChartData
    requires FirstDateStrategy(s.strategy) ==> EqualSeries(s.report, s.selectedCountries)
  {
    var datasets := Select(s.report, s.reportType, s.selectedCountries);
    match s.strategy
    case ByDay(from) => FromPatientZero(datasets, from)
    case ByDate(from) =>
      if from.Some? && from.value != "" then FromGivenDate(s.report, datasets, from.value)
      else
        SelectSameLength(s.report, s.reportType, s.selectedCountries);
        FromFirstDate(s.report, datasets)
  }

  /** By date without `from`, the chart is `fromFirstDateStrategy` of the selection. */
  lemma ToChartDataFirstDate(s: State)
    requires FirstDateStrategy(s.strategy) && EqualSeries(s.report, s.selectedCountries)
    ensures var ds := Select(s.report, s.reportType, s.selectedCountries);
      SameLength(ds) && Consistent(s.report, ds) && ToChartData(s) == FromFirstDate(s.report, ds)
  {
    SelectSameLength(s.report, s.reportType, s.selectedCountries);
    SelectConsistent(s.report, s.reportType, s.selectedCountries);
  }

  /** By date from a date, the chart is `fromGivenDateStrategy` of the selection. */
  lemma ToChartDataGivenDate(s: State)
    requires s.strategy.ByDate? && !FirstDateStrategy(s.strategy)
    ensures var ds := Select(s.report, s.reportType, s.selectedCountries);
      Consistent(s.report, ds) && ToChartData(s) == FromGivenDate(s.report, ds, s.strategy.date.value)
  {
    SelectConsistent(s.report, s.reportType, s.selectedCountries);
  }

  /** By day, the chart is `fromPatientZeroStrategy` of the selection. */
  lemma ToChartDataByDay(s: State)
    requires s.strategy.ByDay?
    ensures ToChartData(s) == FromPatientZero(Select(s.report, s.reportType, s.selectedCountries), s.strategy.day)
  {
  }

  /** By day from a new `from`, the chart is `fromPatientZeroStrategy` of the same selection. */
  lemma ToChartDataFromDay(s: State, from: Option<DayOffset>)
    ensures ToChartData(s.(strategy := ByDay(from))) ==
      FromPatientZero(Select(s.report, s.reportType, s.selectedCountries), from)
  {
  }

  /** `out` holds one dataset per dataset of `ds`, for the same country. */
  predicate SameCountries(ds: seq<Dataset>, out: seq<Dataset>)
  {
    |out| == |ds| && forall i :: 0 <= i < |ds| ==> out[i].country == ds[i].country
  }

  /** By date without `from`, the chart keeps the selection's countries. */
  lemma FirstDateCountries(s: State)
    requires FirstDateStrategy(s.strategy) && EqualSeries(s.report, s.selectedCountries)
    ensures SameCountries(Select(s.report, s.reportType, s.selectedCountries), ToChartData(s).datasets)
  {
    ToChartDataFirstDate(s);
  }

  /** By date from a date, the chart keeps the selection's countries. */
  lemma GivenDateCountries(s: State)
    requires s.strategy.ByDate? && !FirstDateStrategy(s.strategy)
    ensures SameCountries(Select(s.report, s.reportType, s.selectedCountries), ToChartData(s).datasets)
  {
    ToChartDataGivenDate(s);
  }

  /** By day, the chart keeps the selection's countries. */
  lemma ByDayCountries(s: State)
    requires s.strategy.ByDay?
    ensures SameCountries(Select(s.report, s.reportType, s.selectedCountries), ToChartData(s).datasets)
  {
    ToChartDataByDay(s);
  }

  /** Under every strategy the chart has one dataset per selected country of the report, in selection order. */
  lemma ToChartDataSelects(s: State)
    requires FirstDateStrategy(s.strategy) ==> EqualSeries(s.report, s.selectedCountries)
    ensures var c := ToChartData(s); var p := Present(s.report, s.selectedCountries);
      |c.datasets| == |p| && forall i :: 0 <= i < |p| ==> c.datasets[i].country == p[i]
  {
    if FirstDateStrategy(s.strategy) {
      FirstDateCountries(s);
    } else if s.strategy.ByDate? {
      GivenDateCountries(s);
    } else {
      ByDayCountries(s);
    }
  }

  /** An empty selection gives an empty chart under every strategy. */
  lemma EmptySelection(s: State)
    requires s.selectedCountries == []
    ensures ToChartData(s) == ChartData([], [])
  {
  }

  // ---------------------------------------------------------------------
  // Click feedback

  /** `chart.data.labels[_index]`: the label at a position, absent past the end. */
  function LabelAt(labels: seq<string>, index: nat): (r: Option<string>)
    ensures r.Some? <==> index < |labels|
    ensures r.Some? ==> r.value == labels[index]
  {
    if index < |labels| then Some(labels[index]) else None
  }

  /**
   * The strategy `[kind, from]` with a new `from` and the same kind. A
   * non-empty date is kept as it is; the empty string is normalised to an
   * absent date, which `toChartData` treats the same way. A day is the number
   * the label spells.
   */
  function WithFrom(st: Strategy, from: Option<string>): (r: Strategy)
    ensures r.ByDate? <==> st.ByDate?
    ensures r.ByDate? ==> (r.date.Some? <==> from.Some? && from.value != "")
    ensures r.ByDate? && r.date.Some? ==> r.date == from
    ensures r.ByDay? && from.None? ==> r.day.None?
    ensures r.ByDay? && from.Some? ==> r.day == ParseDay(from.value)
  {
    match st
    case ByDate(_) => ByDate(if from.Some? && from.value != "" then from else None)
    case ByDay(_) => ByDay(if from.Some? then ParseDay(from.value) else None)
  }

  /** `SetFromSelector`: only the strategy's `from` changes. */
  function SetFromSelector(s: State, from: Option<string>): (r: State)
    ensures r.report == s.report && r.currentCountry == s.currentCountry
    ensures r.selectedCountries == s.selectedCountries && r.reportType == s.reportType
    ensures r.strategy == WithFrom(s.strategy, from)
  {
    s.(strategy := WithFrom(s.strategy, from))
  }

  /**
   * `onClick`: a click that hits points dispatches the first point's label
   * as the new `from`; a click that hits none changes nothing.
   */
  function OnClick(s: State, labels: seq<string>, hits: seq<nat>): (r: State)
    ensures hits == [] ==> r == s
    ensures r.(strategy := s.strategy) == s
    ensures r.strategy.ByDate? <==> s.strategy.ByDate?
    ensures hits != [] ==> r.strategy == WithFrom(s.strategy, LabelAt(labels, hits[0]))
  {
    if hits == [] then s else SetFromSelector(s, LabelAt(labels, hits[0]))
  }

  /** By date without `from`, the labels are the last dates of the first country. */
  lemma FromFirstDateLastDates(report: Report, ds: seq<Dataset>)
    requires Consistent(report, ds) && SameLength(ds)
    ensures LastDates(report, ds, FromFirstDate(report, ds).labels)
  {
    var r := FromFirstDate(report, ds);
    if ds != [] {
      var dates := Dates(report[ds[0].country]);
      assert |ds[0].data| == |report[ds[0].country]|;
      assert LastN(dates, r.labels, TrimLeadingData(ds).length);
    }
  }

  /** By date, shown labels are the last dates of the first selected country. */
  lemma ByDateLabelsAreDates(s: State)
    requires s.strategy.ByDate?
    requires FirstDateStrategy(s.strategy) ==> EqualSeries(s.report, s.selectedCountries)
    ensures LastDates(s.report, Select(s.report, s.reportType, s.selectedCountries), ToChartData(s).labels)
  {
    var ds := Select(s.report, s.reportType, s.selectedCountries);
    if FirstDateStrategy(s.strategy) {
      ToChartDataFirstDate(s);
      FromFirstDateLastDates(s.report, ds);
    } else {
      ToChartDataGivenDate(s);
    }
  }

  /** A click by date whose first point has a non-empty label makes that label the new `from`. */
  lemma OnClickByDate(s: State, labels: seq<string>, hits: seq<nat>)
    requires s.strategy.ByDate? && hits != [] && hits[0] < |labels| && labels[hits[0]] != ""
    ensures OnClick(s, labels, hits) == s.(strategy := ByDate(Some(labels[hits[0]])))
  {
  }

  /** A click by day makes the day that the first point's label spells the new `from`. */
  lemma OnClickByDay(s: State, labels: seq<string>, hits: seq<nat>)
    requires s.strategy.ByDay? && hits != [] && hits[0] < |labels|
    ensures OnClick(s, labels, hits) == s.(strategy := ByDay(ParseDay(labels[hits[0]])))
  {
  }

  /** A click whose first point lies past the last label clears `from`, keeping the kind. */
  lemma OnClickPastLabels(s: State, labels: seq<string>, hits: seq<nat>)
    requires hits != [] && hits[0] >= |labels|
    ensures OnClick(s, labels, hits) ==
      s.(strategy := if s.strategy.ByDate? then ByDate(None) else ByDay(None))
  {
  }

  /**
   * Re-aligning by date from one of the last dates of the first country
   * gives labels that start with that date.
   */
  lemma FromGivenDateClicked(report: Report, ds: seq<Dataset>, labels: seq<string>, i: nat)
    requires Consistent(report, ds) && LastDates(report, ds, labels) && i < |labels|
    ensures var r := FromGivenDate(report, ds, labels[i]); r.labels != [] && r.labels[0] == labels[i]
  {
    var dates := Dates(report[ds[0].country]);
    assert labels[i] in dates by {
      assert labels[i] == dates[|dates| - |labels| + i];
    }
    FromGivenDateFoundLabels(report, ds, labels[i]);
  }

  /**
   * Re-aligning by day from a shown day label gives labels that start with
   * that label.
   */
  lemma FromPatientZeroClicked(ds: seq<Dataset>, from: Option<DayOffset>, i: nat)
    requires i < |FromPatientZero(ds, from).labels|
    ensures var l := FromPatientZero(ds, from).labels[i]; var day := ParseDay(l);
      day.Some? && FromPatientZero(ds, day).labels != [] && FromPatientZero(ds, day).labels[0] == l
  {
    var day: DayOffset := FirstDay(from) + i;
    FromPatientZeroDays(ds, from);
    DayLabelRoundTrip(day);
    FromPatientZeroDays(ds, Some(day));
  }

  /** The day the labels start at: `from`, or day 1. */
  function FirstDay(from: Option<DayOffset>): DayOffset
  {
    if from.Some? then from.value else 1
  }

  /**
   * The labels by day number consecutive days from `FirstDay(from)`, up to
   * the length of the longest trimmed series.
   */
  lemma FromPatientZeroDays(ds: seq<Dataset>, from: Option<DayOffset>)
    ensures var l := FromPatientZero(ds, from).labels; var n := Longest(TrimZeros(ds));
      |l| + Min(FirstDay(from) - 1, n) == n &&
      forall j {:trigger l[j]} :: 0 <= j < |l| ==> l[j] == DayLabel(FirstDay(from) + j)
  {
    SkipDays(Longest(TrimZeros(ds)), FirstDay(from));
  }

  /**
   * Clicking a point by date and re-aligning from its label gives labels
   * that start with the clicked label.
   */
  lemma ByDateClickRoundTrip(s: State, i: nat)
    requires s.strategy.ByDate?
    requires FirstDateStrategy(s.strategy) ==> EqualSeries(s.report, s.selectedCountries)
    requires i < |ToChartData(s).labels| && ToChartData(s).labels[i] != ""
    ensures var c := ToChartData(s); var s' := OnClick(s, c.labels, [i]);
      s'.strategy == ByDate(Some(c.labels[i])) &&
      ToChartData(s').labels != [] && ToChartData(s').labels[0] == c.labels[i]
  {
    var c := ToChartData(s);
    OnClickByDate(s, c.labels, [i]);
    var s' := OnClick(s, c.labels, [i]);
    ByDateLabelsAreDates(s);
    var ds := Select(s.report, s.reportType, s.selectedCountries);
    SelectConsistent(s.report, s.reportType, s.selectedCountries);
    FromGivenDateClicked(s.report, ds, c.labels, i);
    ToChartDataGivenDate(s');
  }

  /**
   * Clicking a point by day and re-aligning from its label gives labels
   * that start with the clicked label.
   */
  lemma ByDayClickRoundTrip(s: State, i: nat)
    requires s.strategy.ByDay?
    requires i < |ToChartData(s).labels|
    ensures var c := ToChartData(s); var day := ParseDay(c.labels[i]);
      OnClick(s, c.labels, [i]) == s.(strategy := ByDay(day)) && day.Some? &&
      ToChartData(s.(strategy := ByDay(day))).labels != [] &&
      ToChartData(s.(strategy := ByDay(day))).labels[0] == c.labels[i]
  {
    var c := ToChartData(s);
    var ds := Select(s.report, s.reportType, s.selectedCountries);
    ToChartDataByDay(s);
    FromPatientZeroClicked(ds, s.strategy.day, i);
    OnClickByDay(s, c.labels, [i]);
    ToChartDataFromDay(s, ParseDay(c.labels[i]));
  }
}
