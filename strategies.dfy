/**
 * The three alignment strategies of the dashboard's chart: pick one series
 * per selected country from the report, then line the series up from the
 * first date with a case, from a given date, or from each country's own
 * first case.
 */
module Strategies {
  import opened Wrappers
  import opened Sequences
  import opened Model

  // ---------------------------------------------------------------------
  // Selection

  /** The dataset of one selected country, or none when the report lacks it. */
  function ToChartDataItem(report: Report, metric: Metric, name: string): (r: Option<Dataset>)
    ensures r.Some? <==> name in report
    ensures r.Some? ==> r.value.country == name && |r.value.data| == |report[name]|
    ensures r.Some? ==> forall j {:trigger r.value.data[j]} :: 0 <= j < |r.value.data| ==>
      r.value.data[j] == Value(report[name][j], metric)
  {
    if name in report then Some(Dataset(name, Series(report[name], metric))) else None
  }

  /** The selected names that the report holds, in selection order. */
  function Present(report: Report, names: seq<string>): (r: seq<string>)
    ensures forall x :: x in r <==> x in names && x in report
  {
    if names == [] then []
    else if names[0] in report then [names[0]] + Present(report, names[1..])
    else Present(report, names[1..])
  }

  /** Every series belongs to a country of the report and has one value per recorded day. */
  predicate Consistent(report: Report, ds: seq<Dataset>)
  {
    forall i :: 0 <= i < |ds| ==> ds[i].country in report && |ds[i].data| == |report[ds[i].country]|
  }

  /**
   * `selectedCountries.map(toChartDataItem(...)).filter(countryExists)`:
   * one dataset per selected country the report has, in selection order,
   * labelled with the country and holding its values of the metric.
   */
  function Select(report: Report, metric: Metric, names: seq<string>): (r: seq<Dataset>)
    ensures |r| == |Present(report, names)|
    ensures forall i {:trigger r[i]} :: 0 <= i < |r| ==>
      var c := Present(report, names)[i]; r[i] == Dataset(c, Series(report[c], metric))
  {
    if names == [] then []
    else match ToChartDataItem(report, metric, names[0])
      case Some(d) => [d] + Select(report, metric, names[1..])
      case None => Select(report, metric, names[1..])
  }

  /** The selected series fit the report: one value per recorded day of their country. */
  lemma SelectConsistent(report: Report, metric: Metric, names: seq<string>)
    ensures Consistent(report, Select(report, metric, names))
  {
  }

  /**
   * The filter keeps order: the present names of a concatenation are the
   * present names of its parts, one after the other.
   */
  lemma {:induction false} PresentAppend(report: Report, a: seq<string>, b: seq<string>)
    ensures Present(report, a + b) == Present(report, a) + Present(report, b)
  {
    if a == [] {
      assert a + b == b;
    } else {
      assert (a + b)[1..] == a[1..] + b;
      PresentAppend(report, a[1..], b);
    }
  }

  /** When every selected country is in the report, nothing is dropped. */
  lemma {:induction false} PresentAll(report: Report, names: seq<string>)
    requires forall x :: x in names ==> x in report
    ensures Present(report, names) == names
  {
    if names != [] {
      PresentAll(report, names[1..]);
    }
  }

  // ---------------------------------------------------------------------
  // Helpers shared by the strategies

  /** `mapDatasets(data => data.slice(start), datasets)`. */
  function SliceAll(ds: seq<Dataset>, start: int): (r: seq<Dataset>)
    ensures |r| == |ds|
    ensures forall i {:trigger r[i]} :: 0 <= i < |ds| ==>
      r[i].country == ds[i].country && r[i].data == Slice(ds[i].data, start)
  {
    if ds == [] then [] else [ds[0].(data := Slice(ds[0].data, start))] + SliceAll(ds[1..], start)
  }

  /** `listLabels`: the dates of the first dataset's country, or none when it has no data. */
  function ListLabels(report: Report, ds: seq<Dataset>): seq<string>
    requires ds != [] ==> ds[0].country in report
  {
    if ds != [] && |ds[0].data| > 0 then Dates(report[ds[0].country]) else []
  }

  /**
   * No labels without datasets or when the first series is empty; otherwise
   * one label per record of the first dataset's country, its date.
   */
  lemma ListLabelsDates(report: Report, ds: seq<Dataset>)
    requires ds != [] ==> ds[0].country in report
    ensures var r := ListLabels(report, ds);
      (ds == [] || |ds[0].data| == 0 ==> r == []) &&
      (ds != [] && |ds[0].data| > 0 ==>
        |r| == |report[ds[0].country]| &&
        forall j :: 0 <= j < |r| ==> r[j] == report[ds[0].country][j].date)
  {
  }

  /** `trimLeadingLabels`: `listLabels(...).slice(-length)`. */
  function TrimLeadingLabels(report: Report, ds: seq<Dataset>, length: nat): seq<string>
    requires ds != [] ==> ds[0].country in report
  {
    Slice(ListLabels(report, ds), -(length as int))
  }

  /**
   * `trimLeadingLabels` keeps the last `length` labels, and all of them when
   * there are fewer or when `length` is 0 (`slice(-0)`).
   */
  lemma TrimLeadingLabelsSuffix(report: Report, ds: seq<Dataset>, length: nat)
    requires ds != [] ==> ds[0].country in report
    ensures var all := ListLabels(report, ds); var r := TrimLeadingLabels(report, ds, length);
      |r| <= |all| && r == all[|all| - |r|..] &&
      (length == 0 || length >= |all| ==> r == all) &&
      (0 < length <= |all| ==> |r| == length)
  {
    SliceFromEnd(ListLabels(report, ds), length);
  }

  /** `isZero`. */
  predicate IsZero(x: int)
  {
    x == 0
  }

  /** `isZerosArray`: every value of a row is zero. */
  predicate IsZerosArray(row: seq<int>)
  {
    forall k :: 0 <= k < |row| ==> IsZero(row[k])
  }

  // ---------------------------------------------------------------------
  // From the first date on which some country has a case

  /** All series have the same length. */
  predicate SameLength(ds: seq<Dataset>)
  {
    forall i, j :: 0 <= i < |ds| && 0 <= j < |ds| ==> |ds[i].data| == |ds[j].data|
  }

  /** The common length of equal-length series. */
  function Width(ds: seq<Dataset>): nat
  {
    if ds == [] then 0 else |ds[0].data|
  }

  /** lodash `zip` of equal-length series: row `j` holds every series' value at day `j`. */
  function Zip(ds: seq<Dataset>): (rows: seq<seq<int>>)
    requires SameLength(ds)
    ensures |rows| == Width(ds)
    ensures forall j :: 0 <= j < |rows| ==> |rows[j]| == |ds|
    ensures forall j, i {:trigger rows[j][i]} :: 0 <= j < |rows| && 0 <= i < |ds| ==> rows[j][i] == ds[i].data[j]
  {
    seq(Width(ds), j requires 0 <= j < Width(ds) =>
      seq(|ds|, i requires 0 <= i < |ds| => ds[i].data[j]))
  }

  /** lodash `unzip` of rows of one width: column `i` holds every row's `i`-th value; no rows give no columns. */
  function Unzip(rows: seq<seq<int>>): (cols: seq<seq<int>>)
    requires forall j :: 0 <= j < |rows| ==> |rows[j]| == |rows[0]|
    ensures rows == [] ==> cols == []
    ensures rows != [] ==> |cols| == |rows[0]|
    ensures forall i :: 0 <= i < |cols| ==> |cols[i]| == |rows|
    ensures forall i, j {:trigger cols[i][j]} :: 0 <= i < |cols| && 0 <= j < |rows| ==> cols[i][j] == rows[j][i]
  {
    if rows == [] then []
    else
      seq(|rows[0]|, i requires 0 <= i < |rows[0]| =>
        seq(|rows|, j requires 0 <= j < |rows| => rows[j][i]))
  }

  /** The result of `trimLeadingData`: the cleaned datasets and the number of days kept. */
  datatype Trimmed = Trimmed(cleanDatasets: seq<Dataset>, length: nat)

  /**
   * `trimLeadingData`: drop the leading days on which every country has
   * zero. Every series keeps its last `length` values, every dropped day is
   * zero in every series, and on the first kept day some series is non-zero.
   */
  function TrimLeadingData(ds: seq<Dataset>): (r: Trimmed)
    requires SameLength(ds)
    ensures |r.cleanDatasets| == |ds| && r.length <= Width(ds)
    ensures forall i {:trigger r.cleanDatasets[i]} :: 0 <= i < |ds| ==>
      r.cleanDatasets[i].country == ds[i].country &&
      r.cleanDatasets[i].data == ds[i].data[Width(ds) - r.length..]
    ensures forall i, j :: 0 <= i < |ds| && 0 <= j < Width(ds) - r.length ==> ds[i].data[j] == 0
    ensures r.length > 0 ==>
      exists i :: 0 <= i < |ds| && ds[i].data[Width(ds) - r.length] != 0
  {
    var rows := Zip(ds);
    var daysWithCases := DropWhile(rows, IsZerosArray);
    var length := |daysWithCases|;
    var cleanData := Unzip(daysWithCases);
    var cleanDatasets := WithColumns(ds, cleanData);
    KeptColumns(ds, daysWithCases);
    DroppedDaysZero(ds, daysWithCases);
    FirstKeptDayNonZero(ds, daysWithCases);
    Trimmed(cleanDatasets, length)
  }

  /** `mapDatasets((data, i) => cleanData[i] || [], datasets)`. */
  function WithColumns(ds: seq<Dataset>, cleanData: seq<seq<int>>): (r: seq<Dataset>)
    ensures |r| == |ds|
    ensures forall i {:trigger r[i]} :: 0 <= i < |ds| ==>
      r[i] == ds[i].(data := if i < |cleanData| then cleanData[i] else [])
  {
    if ds == [] then []
    else
      var n := |ds| - 1;
      WithColumns(ds[..n], cleanData) + [ds[n].(data := if n < |cleanData| then cleanData[n] else [])]
  }

  /** The columns of the last rows of `Zip(ds)` are the matching suffixes of the series. */
  lemma KeptColumns(ds: seq<Dataset>, kept: seq<seq<int>>)
    requires SameLength(ds)
    requires |kept| <= Width(ds) && kept == Zip(ds)[Width(ds) - |kept|..]
    ensures forall i :: 0 <= i < |ds| ==>
      (if i < |Unzip(kept)| then Unzip(kept)[i] else []) == ds[i].data[Width(ds) - |kept|..]
  {
    var w, cols := Width(ds), Unzip(kept);
    forall i | 0 <= i < |ds|
      ensures (if i < |cols| then cols[i] else []) == ds[i].data[w - |kept|..]
    {
      if kept != [] {
        assert |cols| == |ds|;
        forall j | 0 <= j < |kept|
          ensures cols[i][j] == ds[i].data[w - |kept|..][j]
        {
          assert kept[j] == Zip(ds)[w - |kept| + j];
        }
      }
    }
  }

  /** The rows `dropWhile` removed from `Zip(ds)` hold only zeros. */
  lemma DroppedDaysZero(ds: seq<Dataset>, kept: seq<seq<int>>)
    requires SameLength(ds) && kept == DropWhile(Zip(ds), IsZerosArray)
    ensures forall i, j :: 0 <= i < |ds| && 0 <= j < Width(ds) - |kept| ==> ds[i].data[j] == 0
  {
    var rows := Zip(ds);
    forall i, j | 0 <= i < |ds| && 0 <= j < Width(ds) - |kept|
      ensures ds[i].data[j] == 0
    {
      assert IsZerosArray(rows[j]);
      assert IsZero(rows[j][i]);
    }
  }

  /** The first row `dropWhile` kept holds a non-zero value. */
  lemma FirstKeptDayNonZero(ds: seq<Dataset>, kept: seq<seq<int>>)
    requires SameLength(ds) && kept == DropWhile(Zip(ds), IsZerosArray)
    ensures kept != [] ==>
      exists i :: 0 <= i < |ds| && ds[i].data[Width(ds) - |kept|] != 0
  {
    if kept != [] {
      var rows := Zip(ds);
      assert !IsZerosArray(kept[0]);
      var k :| 0 <= k < |kept[0]| && !IsZero(kept[0][k]);
      assert kept[0] == rows[Width(ds) - |kept|];
      assert ds[k].data[Width(ds) - |kept|] != 0;
    }
  }

  /** `trimLeadingLabels` of no datasets: no labels. */
  lemma NoLabels(report: Report, clean: seq<Dataset>, n: nat)
    requires clean == []
    ensures TrimLeadingLabels(report, clean, n) == []
  {
  }

  /** `labels` are the last `n` entries of `dates`. */
  predicate LastN(dates: seq<string>, labels: seq<string>, n: nat)
  {
    |labels| == n <= |dates| && labels == dates[|dates| - n..]
  }

  /**
   * `trimLeadingLabels` when the first dataset holds the last `n` values of
   * a country: the last `n` dates of that country.
   */
  lemma TrimmedLabels(report: Report, clean: seq<Dataset>, n: nat, country: string)
    requires clean != [] && clean[0].country == country && country in report
    requires |clean[0].data| == n <= |report[country]|
    ensures LastN(Dates(report[country]), TrimLeadingLabels(report, clean, n), n)
  {
    var listed := ListLabels(report, clean);
    SliceFromEnd(listed, n);
  }

  /**
   * `fromFirstDateStrategy`: with `L` the number of days kept from the
   * first day on which some country has a case, every dataset is the last
   * `L` values of its series, and the labels are the last `L` dates of the
   * first country.
   */
  function FromFirstDate(report: Report, ds: seq<Dataset>): (r: ChartData)
    requires SameLength(ds) && (ds != [] ==> ds[0].country in report)
    ensures var L := TrimLeadingData(ds).length;
      |r.datasets| == |ds| &&
      forall i {:trigger r.datasets[i]} :: 0 <= i < |ds| ==>
        r.datasets[i].country == ds[i].country && r.datasets[i].data == ds[i].data[Width(ds) - L..]
    ensures ds == [] ==> r.labels == []
    ensures ds != [] && |ds[0].data| == |report[ds[0].country]| ==>
      LastN(Dates(report[ds[0].country]), r.labels, TrimLeadingData(ds).length)
  {
    var t := TrimLeadingData(ds);
    var labels := TrimLeadingLabels(report, t.cleanDatasets, t.length);
    FromFirstDateLabels(report, ds, t, labels);
    ChartData(labels, t.cleanDatasets)
  }

  /** The label facts of `FromFirstDate`, one case at a time. */
  lemma FromFirstDateLabels(report: Report, ds: seq<Dataset>, t: Trimmed, labels: seq<string>)
    requires SameLength(ds) && (ds != [] ==> ds[0].country in report)
    requires t == TrimLeadingData(ds) && labels == TrimLeadingLabels(report, t.cleanDatasets, t.length)
    ensures ds == [] ==> labels == []
    ensures ds != [] && |ds[0].data| == |report[ds[0].country]| ==>
      LastN(Dates(report[ds[0].country]), labels, t.length)
  {
    if ds == [] {
      NoLabels(report, t.cleanDatasets, t.length);
    } else if |ds[0].data| == |report[ds[0].country]| {
      TrimmedLabels(report, t.cleanDatasets, t.length, ds[0].country);
    }
  }

  /** By date without `from`, when every value is zero: no labels and every dataset empty. */
  lemma FromFirstDateAllZero(report: Report, ds: seq<Dataset>)
    requires Consistent(report, ds) && SameLength(ds)
    requires forall i, j :: 0 <= i < |ds| && 0 <= j < |ds[i].data| ==> ds[i].data[j] == 0
    ensures var r := FromFirstDate(report, ds);
      r.labels == [] && |r.datasets| == |ds| &&
      forall i :: 0 <= i < |ds| ==> r.datasets[i] == Dataset(ds[i].country, [])
  {
  }

  /** Labels, when there are any, are the last dates of the first dataset's country. */
  predicate LastDates(report: Report, ds: seq<Dataset>, labels: seq<string>)
  {
    labels != [] ==>
      ds != [] && ds[0].country in report &&
      var dates := Dates(report[ds[0].country]);
      |labels| <= |dates| && labels == dates[|dates| - |labels|..]
  }

  // ---------------------------------------------------------------------
  // From a given date

  /**
   * `dropWhile(labels, label => label !== from)`: the labels from the first
   * occurrence of `from` on, and none when `from` does not occur.
   */
  function DropUntil(labels: seq<string>, from: string): (r: seq<string>)
    ensures |r| <= |labels| && r == labels[|labels| - |r|..]
    ensures from in labels ==> r == labels[FirstIndex(labels, from)..]
    ensures from !in labels ==> r == []
  {
    var r := DropWhile(labels, date => date != from);
    var start := |labels| - |r|;
    assert from in labels ==> r != [] && r[0] == from && FirstIndex(labels, from) == start by {
      if from in labels {
        assert FirstIndex(labels, from) >= start;
        assert from !in labels[..start] by {
          forall j | 0 <= j < start ensures labels[..start][j] != from {
          }
        }
        FirstIndexUnique(labels, from, start);
      }
    }
    assert from !in labels ==> r == [] by {
      if r != [] {
        assert r[0] in labels;
      }
    }
    r
  }

  /**
   * `fromGivenDateStrategy`. When there are labels, every dataset keeps its
   * last values, as many as there are labels (all of them if it is
   * shorter); when there are none, every dataset is kept whole, because
   * `data.slice(-0)` is the full array.
   */
  function FromGivenDate(report: Report, ds: seq<Dataset>, from: string): (r: ChartData)
    requires ds != [] ==> ds[0].country in report
    ensures LastValues(ds, |r.labels|, r.datasets)
    ensures LastDates(report, ds, r.labels)
  {
    var labels := DropUntil(ListLabels(report, ds), from);
    var length := |labels|;
    SliceAllFromEnd(ds, length);
    ChartData(labels, SliceAll(ds, -(length as int)))
  }

  /**
   * Every dataset of `out` keeps the country of its dataset in `ds` and its
   * last `n` values (all of them if it is shorter), or all of its values
   * when `n` is 0.
   */
  predicate LastValues(ds: seq<Dataset>, n: nat, out: seq<Dataset>)
  {
    |out| == |ds| &&
    forall i {:trigger out[i]} :: 0 <= i < |ds| ==>
      out[i].country == ds[i].country &&
      out[i].data == if n == 0 then ds[i].data else ds[i].data[|ds[i].data| - Min(n, |ds[i].data|)..]
  }

  /**
   * By date from a date the first country has: the labels are its dates
   * from the first occurrence of `from` on, so they start with `from`.
   */
  lemma FromGivenDateFoundLabels(report: Report, ds: seq<Dataset>, from: string)
    requires Consistent(report, ds) && ds != []
    requires from in Dates(report[ds[0].country])
    ensures var r := FromGivenDate(report, ds, from); var dates := Dates(report[ds[0].country]);
      r.labels == dates[FirstIndex(dates, from)..] && r.labels[0] == from
  {
    assert ListLabels(report, ds) == Dates(report[ds[0].country]);
  }

  /** `data.slice(-n)` on every dataset: the last `n` values, or all of them when `n` is 0. */
  lemma SliceAllFromEnd(ds: seq<Dataset>, n: nat)
    ensures LastValues(ds, n, SliceAll(ds, -(n as int)))
  {
    var r := SliceAll(ds, -(n as int));
    forall i | 0 <= i < |ds|
      ensures r[i].data == if n == 0 then ds[i].data else ds[i].data[|ds[i].data| - Min(n, |ds[i].data|)..]
    {
      SliceFromEnd(ds[i].data, n);
    }
  }

  /** The smaller of two numbers. */
  function Min(a: nat, b: nat): (m: nat)
    ensures m <= a && m <= b && (m == a || m == b)
  {
    if a <= b then a else b
  }

  /**
   * By date from a date the first country lacks: no labels, yet every
   * dataset is returned whole, because `data.slice(-0)` is the full array.
   */
  lemma FromGivenDateMissing(report: Report, ds: seq<Dataset>, from: string)
    requires ds != [] ==> ds[0].country in report
    requires ds != [] ==> from !in Dates(report[ds[0].country])
    ensures FromGivenDate(report, ds, from) == ChartData([], ds)
  {
    var r := FromGivenDate(report, ds, from);
    assert r.datasets == ds by {
      forall i | 0 <= i < |ds| ensures r.datasets[i] == ds[i] {
        assert Slice(ds[i].data, -0) == ds[i].data;
      }
    }
  }

  // ---------------------------------------------------------------------
  // From each country's first case ("patient zero")

  /** The decimal digit `d` as a character. */
  function DigitChar(d: nat): char
    requires d < 10
  {
    (48 + d) as char
  }

  predicate IsDigit(c: char)
  {
    '0' <= c <= '9'
  }

  predicate AllDigits(s: string)
  {
    forall k :: 0 <= k < |s| ==> IsDigit(s[k])
  }

  /** `n.toString()` for a whole number: its decimal numeral. */
  function DayLabel(n: nat): string
  {
    if n < 10 then [DigitChar(n)] else DayLabel(n / 10) + [DigitChar(n % 10)]
  }

  /** The value of a decimal numeral. */
  function ParseDigits(s: string): nat
    requires AllDigits(s)
  {
    if s == [] then 0 else 10 * ParseDigits(s[..|s| - 1]) + ((s[|s| - 1] as int) - 48)
  }

  /** `Number(from)` on a numeral naming a day: a non-empty decimal numeral of at least 1. */
  function ParseDay(s: string): Option<DayOffset>
  {
    if s != [] && AllDigits(s) && ParseDigits(s) >= 1 then Some(ParseDigits(s)) else None
  }

  /** A numeral is a non-empty string of digits that reads back as its number. */
  lemma {:induction false} ParseDigitsOfLabel(n: nat)
    ensures DayLabel(n) != [] && AllDigits(DayLabel(n)) && ParseDigits(DayLabel(n)) == n
  {
    if n >= 10 {
      ParseDigitsOfLabel(n / 10);
      var s := DayLabel(n);
      assert s[..|s| - 1] == DayLabel(n / 10);
    }
  }

  /** Day labels read back as the day they name. */
  lemma DayLabelRoundTrip(n: DayOffset)
    ensures ParseDay(DayLabel(n)) == Some(n)
  {
    ParseDigitsOfLabel(n);
  }

  /** `toHumanDays(n)`: the labels "1" to "n". */
  function HumanDays(n: nat): (r: seq<string>)
    ensures |r| == n
    ensures forall j :: 0 <= j < n ==> r[j] == DayLabel(j + 1)
  {
    if n == 0 then [] else HumanDays(n - 1) + [DayLabel(n)]
  }

  /** The `reduce` at the heart of `fromPatientZeroStrategy`: the longest series' length, 0 for none. */
  function Longest(ds: seq<Dataset>): (n: nat)
    ensures forall i :: 0 <= i < |ds| ==> |ds[i].data| <= n
    ensures ds == [] ==> n == 0
    ensures ds != [] ==> exists i :: 0 <= i < |ds| && n == |ds[i].data|
  {
    if ds == [] then 0
    else
      var days := Longest(ds[..|ds| - 1]);
      var length := |ds[|ds| - 1].data|;
      if length > days then length else days
  }

  /** `t` is `d` without its leading zeros. */
  predicate StripsLeadingZeros(d: seq<int>, t: seq<int>)
  {
    |t| <= |d| && t == d[|d| - |t|..] &&
    (forall j :: 0 <= j < |d| - |t| ==> d[j] == 0) &&
    (t != [] ==> t[0] != 0)
  }

  /** `mapDatasets(data => dropWhile(data, isZero), datasets)`: each series loses its own leading zeros. */
  function TrimZeros(ds: seq<Dataset>): (r: seq<Dataset>)
    ensures |r| == |ds|
    ensures forall i {:trigger r[i]} :: 0 <= i < |ds| ==>
      r[i] == ds[i].(data := DropWhile(ds[i].data, IsZero))
  {
    seq(|ds|, i requires 0 <= i < |ds| => ds[i].(data := DropWhile(ds[i].data, IsZero)))
  }

  /** Every trimmed series is its series without the leading zeros. */
  lemma TrimZerosStrips(ds: seq<Dataset>)
    ensures forall i :: 0 <= i < |ds| ==>
      TrimZeros(ds)[i].country == ds[i].country && StripsLeadingZeros(ds[i].data, TrimZeros(ds)[i].data)
  {
    var r := TrimZeros(ds);
    forall i | 0 <= i < |ds|
      ensures r[i].country == ds[i].country && StripsLeadingZeros(ds[i].data, r[i].data)
    {
      var d := ds[i].data;
      assert r[i].data == DropWhile(d, IsZero);
    }
  }

  /** Label `j` is the numeral of day `j + 1`. */
  predicate DayNumerals(labels: seq<string>)
  {
    forall j :: 0 <= j < |labels| ==> labels[j] == DayLabel(j + 1)
  }

  /** `data.slice(n)` on every dataset: all but the first `n` values. */
  lemma SliceAllFrom(ds: seq<Dataset>, n: nat)
    ensures forall i {:trigger SliceAll(ds, n)[i]} :: 0 <= i < |ds| ==>
      SliceAll(ds, n)[i].data == ds[i].data[Min(n, |ds[i].data|)..]
  {
    var r := SliceAll(ds, n);
    forall i | 0 <= i < |ds|
      ensures r[i].data == ds[i].data[Min(n, |ds[i].data|)..]
    {
      SliceFrom(ds[i].data, n);
    }
  }

  /** Skipping the first `k - 1` day labels leaves the labels "k", "k+1", ... */
  lemma SkipDays(n: nat, k: DayOffset)
    ensures var r := HumanDays(n)[Min(k - 1, n)..];
      |r| == n - Min(k - 1, n) &&
      forall j :: 0 <= j < |r| ==> r[j] == DayLabel(k + j)
  {
  }

  /**
   * `fromPatientZeroStrategy`. Every series drops its own leading zeros,
   * and then the days before `from`; the labels number the days of the
   * longest trimmed series, starting at `from` (day 1 when absent).
   */
  function FromPatientZero(ds: seq<Dataset>, from: Option<DayOffset>): (r: ChartData)
    ensures |r.datasets| == |ds|
    ensures forall i {:trigger r.datasets[i]} :: 0 <= i < |ds| ==> r.datasets[i].country == ds[i].country
    ensures from.None? ==> r.labels == HumanDays(Longest(TrimZeros(ds))) && r.datasets == TrimZeros(ds)
    ensures from.Some? ==>
      var t := TrimZeros(ds); var n := Longest(t); var skip := from.value - 1;
      r.labels == HumanDays(n)[Min(skip, n)..] &&
      forall i {:trigger r.datasets[i]} :: 0 <= i < |ds| ==> r.datasets[i].data == t[i].data[Min(skip, |t[i].data|)..]
  {
    var trimmed := TrimZeros(ds);
    var labels := HumanDays(Longest(trimmed));
    match from
    case Some(k) =>
      SliceFrom(labels, k - 1);
      SliceAllFrom(trimmed, k - 1);
      ChartData(Slice(labels, k - 1), SliceAll(trimmed, k - 1))
    case None => ChartData(labels, trimmed)
  }

  /**
   * By day without `from`: every series drops its own leading zeros
   * independently, and the labels are "1" to "N", where N is the length of
   * the longest trimmed series (0 when there is none).
   */
  lemma FromPatientZeroAligned(ds: seq<Dataset>)
    ensures var r := FromPatientZero(ds, None);
      DayNumerals(r.labels) &&
      (forall i :: 0 <= i < |ds| ==>
        StripsLeadingZeros(ds[i].data, r.datasets[i].data) &&
        |r.datasets[i].data| <= |r.labels|) &&
      (ds == [] ==> r.labels == []) &&
      (ds != [] ==> exists i :: 0 <= i < |ds| && |r.datasets[i].data| == |r.labels|)
  {
    var r := FromPatientZero(ds, None);
    var t := TrimZeros(ds);
    assert r.datasets == t;
    TrimZerosStrips(ds);
  }

  /**
   * By day from day `k`: the labels and every trimmed series lose their
   * first `k - 1` entries, so the labels run "k", "k+1", ...
   */
  lemma FromPatientZeroFromDay(ds: seq<Dataset>, k: DayOffset)
    ensures var p := FromPatientZero(ds, None); var r := FromPatientZero(ds, Some(k));
      r.labels == p.labels[Min(k - 1, |p.labels|)..] &&
      (forall j :: 0 <= j < |r.labels| ==> r.labels[j] == DayLabel(k + j)) &&
      |r.datasets| == |p.datasets| &&
      forall i :: 0 <= i < |ds| ==>
        r.datasets[i].country == ds[i].country &&
        r.datasets[i].data == p.datasets[i].data[Min(k - 1, |p.datasets[i].data|)..]
  {
    var n := Longest(TrimZeros(ds));
    SkipDays(n, k);
  }
}
