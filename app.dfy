/**
 * The dashboard's country-selection actions: every action returns a new
 * state built from the old one, and the selected countries stay an ordered
 * list without duplicates. Also the older, simpler chart-data builder that
 * plots the confirmed cases of every selected country by date.
 */
module App {
  import opened Sequences
  import opened Model
  import opened Strategies

  // ---------------------------------------------------------------------
  // Lists of countries

  /**
   * `r` lists elements of `s` in the order of their first occurrences in
   * `s`, none twice.
   */
  predicate InOrder<T(==)>(r: seq<T>, s: seq<T>)
  {
    (forall i :: 0 <= i < |r| ==> r[i] in s) &&
    forall i, j :: 0 <= i < j < |r| ==> FirstIndex(s, r[i]) < FirstIndex(s, r[j])
  }

  /** Elements in the order of their first occurrences are distinct. */
  lemma InOrderNoDup<T>(r: seq<T>, s: seq<T>)
    requires InOrder(r, s)
    ensures NoDup(r)
  {
  }

  /**
   * Growing `s` by one element keeps the order of first occurrences, and the
   * new element comes last when it is new.
   */
  lemma ExtendInOrder<T>(s: seq<T>, u: seq<T>)
    requires s != [] && InOrder(u, s[..|s| - 1])
    ensures InOrder(u, s)
    ensures s[|s| - 1] !in s[..|s| - 1] ==> InOrder(u + [s[|s| - 1]], s)
  {
    var n := |s| - 1;
    forall i | 0 <= i < |u|
      ensures u[i] in s && FirstIndex(s, u[i]) == FirstIndex(s[..n], u[i]) < n
    {
      FirstIndexPrefix(s, n, u[i]);
    }
    if s[n] !in s[..n] {
      FirstIndexUnique(s, s[n], n);
      var r := u + [s[n]];
      forall i, j | 0 <= i < j < |r|
        ensures FirstIndex(s, r[i]) < FirstIndex(s, r[j])
      {
        assert r[i] == u[i];
      }
    }
  }

  /**
   * `[...new Set(list)]`: each element once, in the order of first
   * occurrences.
   */
  function Unique<T(==, !new)>(s: seq<T>): (r: seq<T>)
    ensures forall x :: x in r <==> x in s
    ensures NoDup(r)
  {
    if s == [] then []
    else
      var n := |s| - 1;
      var u := Unique(s[..n]);
      assert s == s[..n] + [s[n]];
      if s[n] in u then u else u + [s[n]]
  }

  /** `Unique` keeps the order of first occurrences. */
  lemma {:induction false} UniqueInOrder<T(!new)>(s: seq<T>)
    ensures InOrder(Unique(s), s)
  {
    if s != [] {
      var n := |s| - 1;
      UniqueInOrder(s[..n]);
      ExtendInOrder(s, Unique(s[..n]));
    }
  }

  /** `Unique` leaves a list without duplicates as it is. */
  lemma {:induction false} UniqueOfNoDup<T(!new)>(s: seq<T>)
    requires NoDup(s)
    ensures Unique(s) == s
  {
    if s != [] {
      var n := |s| - 1;
      var p := s[..n];
      assert NoDup(p) by {
        forall i, j | 0 <= i < j < |p| ensures p[i] != p[j] {
          assert p[i] == s[i] && p[j] == s[j];
        }
      }
      UniqueOfNoDup(p);
      assert s[n] !in p by {
        forall i | 0 <= i < |p| ensures p[i] != s[n] {
          assert p[i] == s[i];
        }
      }
      assert p + [s[n]] == s;
    }
  }

  /**
   * Appending to a list without duplicates and removing duplicates: the
   * list itself when the element is already there, the list with the
   * element at the end otherwise.
   */
  lemma AppendUnique<T(!new)>(s: seq<T>, x: T)
    ensures NoDup(s) ==> Unique(s + [x]) == if x in s then s else s + [x]
  {
    if NoDup(s) {
      var t := s + [x];
      assert t[..|s|] == s;
      UniqueOfNoDup(s);
    }
  }

  /** `list.filter(c => c !== country)`. */
  function Without<T(==, !new)>(s: seq<T>, c: T): (r: seq<T>)
    ensures forall x :: x in r <==> x in s && x != c
    ensures multiset(r) == multiset(s)[c := 0]
    ensures |r| <= |s|
  {
    if s == [] then []
    else
      var n := |s| - 1;
      var w := Without(s[..n], c);
      assert s == s[..n] + [s[n]];
      if s[n] == c then w else w + [s[n]]
  }

  /** Removing from a list without duplicates keeps the others in their order and no duplicates. */
  lemma {:induction false} WithoutOrder<T(!new)>(s: seq<T>, c: T)
    requires NoDup(s)
    ensures InOrder(Without(s, c), s) && NoDup(Without(s, c))
  {
    if s != [] {
      var n := |s| - 1;
      assert NoDup(s[..n]);
      WithoutOrder(s[..n], c);
      assert s[n] !in s[..n];
      ExtendInOrder(s, Without(s[..n], c));
      InOrderNoDup(Without(s, c), s);
    }
  }

  /** Removing what is absent changes nothing. */
  lemma {:induction false} WithoutAbsent<T(!new)>(s: seq<T>, c: T)
    requires c !in s
    ensures Without(s, c) == s
  {
    if s != [] {
      var n := |s| - 1;
      WithoutAbsent(s[..n], c);
      assert s[..n] + [s[n]] == s;
    }
  }

  // ---------------------------------------------------------------------
  // Actions

  /** `AddCountryFromMap(country)`: select a country, at the end, unless it is selected already. */
  function AddCountryFromMap(s: State, country: string): (r: State)
    ensures r.(selectedCountries := s.selectedCountries) == s
    ensures NoDup(r.selectedCountries) && country in r.selectedCountries
    ensures forall c :: c in r.selectedCountries <==> c in s.selectedCountries || c == country
    ensures NoDup(s.selectedCountries) ==>
      r.selectedCountries == if country in s.selectedCountries then s.selectedCountries
      else s.selectedCountries + [country]
  {
    AppendUnique(s.selectedCountries, country);
    s.(selectedCountries := Unique(s.selectedCountries + [country]))
  }

  /** `AddCountry`: add the country currently picked in the drop-down. */
  function AddCountry(s: State): (r: State)
    ensures r.(selectedCountries := s.selectedCountries) == s
    ensures NoDup(r.selectedCountries) && s.currentCountry in r.selectedCountries
    ensures forall c :: c in r.selectedCountries <==> c in s.selectedCountries || c == s.currentCountry
    ensures NoDup(s.selectedCountries) ==>
      r.selectedCountries == if s.currentCountry in s.selectedCountries then s.selectedCountries
      else s.selectedCountries + [s.currentCountry]
  {
    AddCountryFromMap(s, s.currentCountry)
  }

  /**
   * `RemoveCountry(country)`, and `RemoveCountryFromMap(country)`, which is
   * the same function: deselect every occurrence of the country.
   */
  function RemoveCountry(s: State, country: string): (r: State)
    ensures r.(selectedCountries := s.selectedCountries) == s
    ensures forall c :: c in r.selectedCountries <==> c in s.selectedCountries && c != country
    ensures multiset(r.selectedCountries) == multiset(s.selectedCountries)[country := 0]
  {
    s.(selectedCountries := Without(s.selectedCountries, country))
  }

  /** `SelectCountry`: pick a country in the drop-down; nothing else changes. */
  function SelectCountry(s: State, country: string): (r: State)
    ensures r.currentCountry == country
    ensures r.report == s.report && r.selectedCountries == s.selectedCountries
    ensures r.reportType == s.reportType && r.strategy == s.strategy
  {
    s.(currentCountry := country)
  }

  /** `GotReport`: store the fetched report; nothing else changes. */
  function GotReport(s: State, report: Report): (r: State)
    ensures r.report == report
    ensures r.currentCountry == s.currentCountry && r.selectedCountries == s.selectedCountries
    ensures r.reportType == s.reportType && r.strategy == s.strategy
  {
    s.(report := report)
  }

  /** `isActive(state)(country)`: whether the country is selected. */
  function IsActive(s: State, country: string): (b: bool)
    ensures b <==> exists i :: 0 <= i < |s.selectedCountries| && s.selectedCountries[i] == country
  {
    country in s.selectedCountries
  }

  /** Adding twice is adding once. */
  lemma AddIdempotent(s: State, country: string)
    ensures AddCountryFromMap(AddCountryFromMap(s, country), country) == AddCountryFromMap(s, country)
  {
  }

  /** Pressing "Select" twice is pressing it once. */
  lemma AddCountryIdempotent(s: State)
    ensures AddCountry(AddCountry(s)) == AddCountry(s)
  {
    AddIdempotent(s, s.currentCountry);
  }

  /** Adding an absent country and removing it again gives back the state. */
  lemma AddThenRemove(s: State, country: string)
    requires NoDup(s.selectedCountries) && country !in s.selectedCountries
    ensures RemoveCountry(AddCountryFromMap(s, country), country) == s
  {
    var sel := s.selectedCountries;
    WithoutAbsent(sel, country);
    assert Without(sel + [country], country) == Without(sel, country) by {
      assert (sel + [country])[..|sel|] == sel;
    }
  }

  /** After adding, the country is active and so is everything that was. */
  lemma ActiveAfterAdd(s: State, country: string, c: string)
    ensures IsActive(AddCountryFromMap(s, country), c) <==> IsActive(s, c) || c == country
  {
  }

  /** After removing, the country is inactive and the others keep their activity. */
  lemma ActiveAfterRemove(s: State, country: string, c: string)
    ensures IsActive(RemoveCountry(s, country), c) <==> IsActive(s, c) && c != country
  {
  }

  /** Removing keeps the selection free of duplicates and in its order. */
  lemma RemoveKeepsOrder(s: State, country: string)
    requires NoDup(s.selectedCountries)
    ensures var r := RemoveCountry(s, country).selectedCountries;
      NoDup(r) && InOrder(r, s.selectedCountries)
  {
    WithoutOrder(s.selectedCountries, country);
  }

  // ---------------------------------------------------------------------
  // The simple chart data

  /**
   * The older `toChartData`: the dates of the first selected country (none
   * when nothing, or the empty name, is selected first), and the confirmed
   * cases of every selected country, in selection order.
   */
  function SimpleChartData(s: State): (c: ChartData)
    requires forall name :: name in s.selectedCountries ==> name in s.report
    ensures s.selectedCountries == [] ==> c.labels == []
    ensures s.selectedCountries != [] && s.selectedCountries[0] != "" ==>
      c.labels == Dates(s.report[s.selectedCountries[0]])
    ensures s.selectedCountries != [] && s.selectedCountries[0] == "" ==> c.labels == []
    ensures |c.datasets| == |s.selectedCountries|
    ensures forall i {:trigger c.datasets[i]} :: 0 <= i < |c.datasets| ==>
      var name := s.selectedCountries[i];
      c.datasets[i].country == name &&
      |c.datasets[i].data| == |s.report[name]| &&
      forall j {:trigger c.datasets[i].data[j]} :: 0 <= j < |s.report[name]| ==>
        c.datasets[i].data[j] == s.report[name][j].confirmed
  {
    var sel := s.selectedCountries;
    var labels := if sel != [] && sel[0] != "" then Dates(s.report[sel[0]]) else [];
    ChartData(labels,
      seq(|sel|, i requires 0 <= i < |sel| => Dataset(sel[i], Series(s.report[sel[i]], Confirmed))))
  }

  /**
   * When every selected country is in the report, the simple builder's
   * datasets are the confirmed-case selection of the full pipeline.
   */
  lemma SimpleChartDataSelects(s: State)
    requires forall name :: name in s.selectedCountries ==> name in s.report
    ensures SimpleChartData(s).datasets == Select(s.report, Confirmed, s.selectedCountries)
  {
    PresentAll(s.report, s.selectedCountries);
  }
}
