/**
 * The dashboard's data: the fetched report (country name to its daily
 * records), the series handed to the chart, the alignment strategy and the
 * application state that every action returns a new copy of.
 */
module Model {
  import opened Wrappers

  /** The metric a chart plots: the `reportType` property of a record. */
  datatype Metric = Confirmed | Deaths | Recovered

  /** One day's observation for one country. */
  datatype Stats = Stats(date: string, confirmed: int, deaths: int, recovered: int)

  /** Country name to its daily records in ascending date order. */
  type Report = map<string, seq<Stats>>

  /** A 1-based day number of the by-day alignment. */
  type DayOffset = n: nat | 1 <= n witness 1

  /**
   * The strategy pair `[kind, from]`: align by calendar date, optionally
   * starting at a given date, or by days since each country's first case,
   * optionally starting at a given day number.
   */
  datatype Strategy = ByDate(date: Option<string>) | ByDay(day: Option<DayOffset>)

  /** One plotted series: the country (its `label`) and its values (colours are not modelled). */
  datatype Dataset = Dataset(country: string, data: seq<int>)

  /** What the chart widget draws: `{labels, datasets}`. */
  datatype ChartData = ChartData(labels: seq<string>, datasets: seq<Dataset>)

  /** The application state. */
  datatype State = State(
    report: Report,
    currentCountry: string,
    selectedCountries: seq<string>,
    reportType: Metric,
    strategy: Strategy)

  /** `prop(reportType)` applied to a record. */
  function Value(s: Stats, m: Metric): int
  {
    match m
    case Confirmed => s.confirmed
    case Deaths => s.deaths
    case Recovered => s.recovered
  }

  /** `records.map(prop(reportType))`. */
  function Series(records: seq<Stats>, m: Metric): (r: seq<int>)
    ensures |r| == |records|
    ensures forall i {:trigger r[i]} :: 0 <= i < |r| ==> r[i] == Value(records[i], m)
  {
    if records == [] then [] else [Value(records[0], m)] + Series(records[1..], m)
  }

  /** `records.map(stats => stats.date)`. */
  function Dates(records: seq<Stats>): (r: seq<string>)
    ensures |r| == |records|
    ensures forall i {:trigger r[i]} :: 0 <= i < |r| ==> r[i] == records[i].date
  {
    if records == [] then [] else [records[0].date] + Dates(records[1..])
  }
}
