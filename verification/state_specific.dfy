/**
 * The detail view of one state (`StateSpecific`): the state's totals, its
 * districts sorted by a chosen count and laid out four to a row, the last ten
 * days of its history, and a synthetic ten-day bar chart.
 */
module StateSpecific {
  import opened Wrappers
  import opened Payload
  import opened Text
  import opened StableSort

  function Min(a: int, b: int): int {
    if a <= b then a else b
  }

  // ---------------------------------------------------------------- districts

  /** The four counts a stats card sorts by; a card passes its lower-cased label. */
  datatype Field = Confirmed | Active | Recovered | Deceased

  datatype District = District(name: string, confirmed: int, active: int, recovered: int, deceased: int)

  /** `district[type]`. */
  function Count(d: District, f: Field): int {
    match f
    case Confirmed => d.confirmed
    case Active => d.active
    case Recovered => d.recovered
    case Deceased => d.deceased
  }

  /** The comparator `(a, b) => b[type] - a[type]`: larger counts first. */
  function ByCountDesc(f: Field): (le: (District, District) -> bool)
    ensures forall a, b :: le(a, b) <==> Count(b, f) - Count(a, f) <= 0
  {
    (a: District, b: District) => Count(a, f) >= Count(b, f)
  }

  lemma ByCountDescIsTotalPreorder(f: Field)
    ensures TotalPreorder(ByCountDesc(f))
  {
    var le := ByCountDesc(f);
    forall a, b ensures Comparable(le, a, b) {
    }
    forall a, b, c ensures Chained(le, a, b, c) {
    }
  }

  /** A district sort is a stable permutation in non-increasing order of the chosen count. */
  lemma DistrictSortSpec(districts: seq<District>, f: Field)
    ensures var r := Sort(districts, ByCountDesc(f));
      && multiset(r) == multiset(districts)
      && StablePermutation(r, districts, ByCountDesc(f))
      && forall i, j :: 0 <= i < j < |r| ==> Count(r[i], f) >= Count(r[j], f)
  {
    ByCountDescIsTotalPreorder(f);
    SortSpec(districts, ByCountDesc(f));
  }

  /** Confirmed, recovered and deceased are all present. */
  predicate Complete(t: Totals) {
    t.confirmed.Some? && t.recovered.Some? && t.deceased.Some?
  }

  /**
   * One district: missing counts read as zero, but `active` is computed on
   * the raw counts, `c - (r + d) || 0`, so it is zero as soon as one is missing.
   */
  function DistrictOf(name: string, s: Snapshot): District {
    var t := TotalsOrEmpty(s.total);
    var active := if Complete(t) then t.confirmed.value - (t.recovered.value + t.deceased.value) else 0;
    District(name, OrZero(t.confirmed), active, OrZero(t.recovered), OrZero(t.deceased))
  }

  /** `Object.entries(districts || {}).map(...)`. */
  function DistrictsOf(districts: Object<Snapshot>): (r: seq<District>)
    ensures |r| == |districts|
    ensures forall i :: 0 <= i < |r| ==>
      && r[i].name == districts[i].0
      && r[i].confirmed == OrZero(TotalsOrEmpty(districts[i].1.total).confirmed)
      && r[i].recovered == OrZero(TotalsOrEmpty(districts[i].1.total).recovered)
      && r[i].deceased == OrZero(TotalsOrEmpty(districts[i].1.total).deceased)
    ensures forall i :: 0 <= i < |r| ==>
      if Complete(TotalsOrEmpty(districts[i].1.total))
      then r[i].active == r[i].confirmed - (r[i].recovered + r[i].deceased)
      else r[i].active == 0
  {
    if districts == [] then [] else [DistrictOf(districts[0].0, districts[0].1)] + DistrictsOf(districts[1..])
  }

  /**
   * Unlike the state totals, a district with a missing count does not satisfy
   * `active = confirmed - (recovered + deceased)`: here 10 confirmed, 3
   * recovered and no deceased count show 0 active rather than 7.
   */
  lemma DistrictActiveIgnoresDefaults()
    ensures var d := DistrictOf("X", Snapshot(Some(Totals(Some(10), Some(3), None, None))));
      d.active == 0 && d.confirmed - (d.recovered + d.deceased) == 7
  {
  }

  // ---------------------------------------------------------------- state summary

  datatype StateDetails = StateDetails(
    confirmed: int,
    active: int,
    recovered: int,
    deceased: int,
    tested: int,
    lastUpdated: Option<string>)

  /** One bar-chart entry. */
  datatype ChartPoint = ChartPoint(name: string, confirmed: int, active: int, recovered: int, deceased: int)

  function DayLabel(n: nat): string {
    "Day " + Decimal(n)
  }

  /**
   * `Array.from({ length: 10 }, ...)`: ten synthetic days.  Each count starts
   * one step above the total and climbs by a fixed step per day (1000, 500,
   * 800 and 100).
   */
  function ChartData(confirmed: int, active: int, recovered: int, deceased: int): (r: seq<ChartPoint>)
    ensures |r| == 10
    ensures r[0].confirmed == confirmed + 1000 && r[0].active == active + 500
    ensures r[0].recovered == recovered + 800 && r[0].deceased == deceased + 100
    ensures forall i :: 0 <= i < 9 ==>
      && r[i + 1].confirmed - r[i].confirmed == 1000
      && r[i + 1].active - r[i].active == 500
      && r[i + 1].recovered - r[i].recovered == 800
      && r[i + 1].deceased - r[i].deceased == 100
  {
    seq(10, i requires 0 <= i < 10 =>
      ChartPoint(DayLabel(i + 1),
                 confirmed + 1000 * (i + 1),
                 active + 500 * (i + 1),
                 recovered + 800 * (i + 1),
                 deceased + 100 * (i + 1)))
  }

  /**
   * The entries are named "Day 1" to "Day 10", in order: "Day " followed by
   * the decimal digits of the day, with no leading zero.
   */
  lemma ChartDataLabels(confirmed: int, active: int, recovered: int, deceased: int)
    ensures var r := ChartData(confirmed, active, recovered, deceased);
      forall i :: 0 <= i < |r| ==>
        && r[i].name[..4] == "Day "
        && r[i].name[4..] == Decimal(i + 1)
        && DigitsValue(r[i].name[4..]) == i + 1
  {
    var r := ChartData(confirmed, active, recovered, deceased);
    forall i | 0 <= i < |r|
      ensures r[i].name[..4] == "Day " && r[i].name[4..] == Decimal(i + 1) && DigitsValue(r[i].name[4..]) == i + 1
    {
      assert r[i].name == DayLabel(i + 1);
      DecimalRoundTrip(i + 1);
    }
  }

  /**
   * Started from a consistent total, the steps do not balance: on day `k` the
   * chart's `active` is `400 * k` above `confirmed - (recovered + deceased)`.
   */
  lemma ChartDataDrift(confirmed: int, recovered: int, deceased: int)
    ensures var r := ChartData(confirmed, confirmed - (recovered + deceased), recovered, deceased);
      forall i :: 0 <= i < |r| ==> r[i].active - (r[i].confirmed - (r[i].recovered + r[i].deceased)) == 400 * (i + 1)
  {
  }

  /** What `fetchStateData` computes from the payload before its one `setState`. */
  datatype StateView = StateView(details: StateDetails, districts: seq<District>, chart: seq<ChartPoint>)

  /**
   * The state's entry, read as `fetchStateData` reads it.  There is no view
   * when the code is absent (the early return) and none when the entry lacks
   * `meta` or `total` (the destructuring throws, and the error is only logged).
   */
  function ReadState(data: Object<StateEntry>, stateId: string): (r: Option<StateView>)
    ensures r.None? <==>
      || stateId !in Keys(data)
      || Lookup(data, stateId).value.meta.None?
      || Lookup(data, stateId).value.total.None?
    ensures r.Some? ==>
      var entry := Lookup(data, stateId).value;
      var t := entry.total.value;
      var d := r.value.details;
      && d.confirmed == OrZero(t.confirmed)
      && d.recovered == OrZero(t.recovered)
      && d.deceased == OrZero(t.deceased)
      && d.tested == OrZero(t.tested)
      && d.active == d.confirmed - (d.recovered + d.deceased)
      && d.lastUpdated == entry.meta.value.lastUpdated
      && r.value.districts == DistrictsOf(entry.districts.GetOr([]))
      && r.value.chart == ChartData(d.confirmed, d.active, d.recovered, d.deceased)
  {
    match Lookup(data, stateId)
    case None => None
    case Some(entry) =>
      if entry.meta.None? || entry.total.None? then None
      else
        var t := entry.total.value;
        var confirmed, deceased, recovered, tested := OrZero(t.confirmed), OrZero(t.deceased), OrZero(t.recovered), OrZero(t.tested);
        var activeCases := confirmed - (recovered + deceased);
        Some(StateView(
          StateDetails(confirmed, activeCases, recovered, deceased, tested, entry.meta.value.lastUpdated),
          DistrictsOf(entry.districts.GetOr([])),
          ChartData(confirmed, activeCases, recovered, deceased)))
  }

  // ---------------------------------------------------------------- timeline

  datatype TimelinePoint = TimelinePoint(date: string, confirmed: int, deceased: int, recovered: int, active: int)

  function PointOf(date: string, s: Snapshot): TimelinePoint {
    var t := TotalsOrEmpty(s.total);
    var confirmed, deceased, recovered := OrZero(t.confirmed), OrZero(t.deceased), OrZero(t.recovered);
    TimelinePoint(date, confirmed, deceased, recovered, confirmed - (recovered + deceased))
  }

  /** `Object.keys(stateTimeline).map(...)`: one point per date, in key order. */
  function FormatTimeline(dates: Object<Snapshot>): (r: seq<TimelinePoint>)
    ensures |r| == |dates|
    ensures forall i :: 0 <= i < |r| ==>
      && r[i].date == dates[i].0
      && r[i].confirmed == OrZero(TotalsOrEmpty(dates[i].1.total).confirmed)
      && r[i].recovered == OrZero(TotalsOrEmpty(dates[i].1.total).recovered)
      && r[i].deceased == OrZero(TotalsOrEmpty(dates[i].1.total).deceased)
      && r[i].active == r[i].confirmed - (r[i].recovered + r[i].deceased)
  {
    if dates == [] then [] else [PointOf(dates[0].0, dates[0].1)] + FormatTimeline(dates[1..])
  }

  /** `s.slice(-n)` for a positive `n`: the last `n` elements, or all of them. */
  function LastN<T>(s: seq<T>, n: nat): (r: seq<T>)
    requires n > 0
    ensures |r| == Min(|s|, n)
    ensures s == s[..|s| - |r|] + r
  {
    if |s| <= n then s else s[|s| - n..]
  }

  /** The dates of the state's history, or none when the state or its `dates` is missing. */
  function HistoryDates(data: Object<History>, stateId: string): (dates: Object<Snapshot>)
    ensures stateId !in Keys(data) ==> dates == []
    ensures stateId in Keys(data) ==>
      var h := Lookup(data, stateId).value;
      dates == if h.dates.Some? then h.dates.value else []
  {
    match Lookup(data, stateId)
    case None => []
    case Some(h) => h.dates.GetOr([])
  }

  /**
   * The stored timeline: the last `min(n, 10)` of the `n` dates, formatted, in
   * date-key order; empty when the state or its `dates` is missing.
   */
  lemma TimelineSpec(data: Object<History>, stateId: string)
    ensures var dates := HistoryDates(data, stateId);
      var r := LastN(FormatTimeline(dates), 10);
      && |r| == Min(|dates|, 10)
      && r == FormatTimeline(dates[|dates| - |r|..])
      && (stateId !in Keys(data) ==> r == [])
  {
    var dates := HistoryDates(data, stateId);
    var all := FormatTimeline(dates);
    var r := LastN(all, 10);
    FormatTimelineSuffix(dates, |dates| - |r|);
    assert all == all[..|all| - |r|] + r;
  }

  /** Formatting commutes with dropping leading dates. */
  lemma {:induction false} FormatTimelineSuffix(dates: Object<Snapshot>, m: nat)
    requires m <= |dates|
    ensures FormatTimeline(dates[m..]) == FormatTimeline(dates)[m..]
  {
    if m > 0 {
      FormatTimelineSuffix(dates[1..], m - 1);
      assert dates[1..][m - 1..] == dates[m..];
    }
  }

  // ---------------------------------------------------------------- grouping

  function Flatten<T>(groups: seq<seq<T>>): seq<T> {
    if groups == [] then [] else Flatten(groups[..|groups| - 1]) + groups[|groups| - 1]
  }

  /**
   * After `i` items (a multiple of four), `groups` holds one slice of four per
   * step, the last one cut short by the end of `s`, and they spell out `s[..i]`.
   */
  ghost predicate Grouped<T>(s: seq<T>, groups: seq<seq<T>>, i: nat) {
    && i == 4 * |groups| && (i == 0 || i - 4 < |s|)
    && (forall k :: 0 <= k < |groups| ==> 4 * k < |s| && groups[k] == s[4 * k..Min(4 * k + 4, |s|)])
    && Flatten(groups) == s[..Min(i, |s|)]
  }

  lemma GroupStep<T>(s: seq<T>, groups: seq<seq<T>>, i: nat)
    requires Grouped(s, groups, i) && i < |s|
    ensures Grouped(s, groups + [s[i..Min(i + 4, |s|)]], i + 4)
  {
    var chunk := s[i..Min(i + 4, |s|)];
    FlattenSnoc(groups, chunk);
    assert s[..Min(i + 4, |s|)] == s[..i] + chunk;
  }

  lemma GroupedAll<T>(s: seq<T>, groups: seq<seq<T>>, i: nat)
    requires Grouped(s, groups, i) && i >= |s|
    ensures |groups| == (|s| + 3) / 4
    ensures forall k :: 0 <= k < |groups| ==> 1 <= |groups[k]| <= 4
    ensures forall k :: 0 <= k < |groups| - 1 ==> |groups[k]| == 4
    ensures Flatten(groups) == s
  {
    assert s[..|s|] == s;
  }

  lemma FlattenSnoc<T>(groups: seq<seq<T>>, g: seq<T>)
    ensures Flatten(groups + [g]) == Flatten(groups) + g
  {
    assert (groups + [g])[..|groups|] == groups;
  }

  // ---------------------------------------------------------------- component

  /** `districtsList.sort((a, b) => b.confirmed - a.confirmed)` on a fresh array holding the list. */
  method SortedByConfirmed(districts: seq<District>) returns (a: array<District>)
    ensures fresh(a)
    ensures a[..] == Sort(districts, ByCountDesc(Confirmed))
    ensures multiset(a[..]) == multiset(districts)
  {
    a := new District[|districts|](i requires 0 <= i < |districts| => districts[i]);
    assert a[..] == districts;
    SortInPlace(a, ByCountDesc(Confirmed));
  }

  class StateSpecificComponent {
    /** The route parameter `match.params.stateId`. */
    const stateId: string

    var stateDetails: Option<StateDetails>
    var districtsData: array<District>
    var lastUpdated: Option<string>
    var tested: int
    var isLoading: bool
    var chartData: seq<ChartPoint>
    var timelineData: seq<TimelinePoint>
    var sortedDistrictsData: array<District>
    var sortBy: Field

    /** The district list as last mapped from the payload, before any sort. */
    ghost var fetchedDistricts: seq<District>

    /**
     * Both district fields show the same districts, a reordering of the
     * fetched list; once loaded they are one and the same array.
     */
    ghost predicate Valid()
      reads this, districtsData, sortedDistrictsData
    {
      && sortedDistrictsData[..] == districtsData[..]
      && multiset(districtsData[..]) == multiset(fetchedDistricts)
      && (!isLoading ==> sortedDistrictsData == districtsData && stateDetails.Some? && |chartData| == 10)
    }

    constructor (stateId: string)
      ensures Valid()
      ensures this.stateId == stateId
      ensures stateDetails == None && districtsData.Length == 0 && sortedDistrictsData.Length == 0
      ensures fresh(districtsData) && fresh(sortedDistrictsData) && districtsData != sortedDistrictsData
      ensures lastUpdated == Some("") && tested == 0 && isLoading
      ensures chartData == [] && timelineData == [] && sortBy == Confirmed
    {
      this.stateId := stateId;
      stateDetails := None;
      districtsData := new District[0];
      sortedDistrictsData := new District[0];
      lastUpdated, tested, isLoading := Some(""), 0, true;
      chartData, timelineData, sortBy := [], [], Confirmed;
      fetchedDistricts := [];
    }

    /**
     * `fetchStateData` once the payload is parsed.  Without a readable entry
     * nothing changes and the view keeps loading; otherwise the districts are
     * sorted in place by confirmed count and both district fields get that array.
     */
    method FetchStateData(data: Object<StateEntry>)
      requires Valid()
      modifies this
      ensures Valid()
      ensures ReadState(data, stateId).None? ==> unchanged(this)
      ensures ReadState(data, stateId).Some? ==>
        var v := ReadState(data, stateId).value;
        && stateDetails == Some(v.details)
        && fresh(districtsData) && sortedDistrictsData == districtsData
        && districtsData[..] == Sort(v.districts, ByCountDesc(Confirmed))
        && lastUpdated == v.details.lastUpdated && tested == v.details.tested
        && chartData == v.chart && !isLoading
        && timelineData == old(timelineData) && sortBy == old(sortBy)
    {
      var view := ReadState(data, stateId);
      if view.None? {
        return;
      }
      var districtsList := SortedByConfirmed(view.value.districts);
      Install(view.value, districtsList);
    }

    /** The `setState` of a successful fetch: every field the view reads from the payload. */
    method Install(v: StateView, districtsList: array<District>)
      requires multiset(districtsList[..]) == multiset(v.districts)
      requires |v.chart| == 10
      modifies this
      ensures Valid()
      ensures stateDetails == Some(v.details)
      ensures districtsData == districtsList && sortedDistrictsData == districtsList
      ensures districtsData[..] == old(districtsList[..])
      ensures lastUpdated == v.details.lastUpdated && tested == v.details.tested
      ensures chartData == v.chart && !isLoading
      ensures timelineData == old(timelineData) && sortBy == old(sortBy)
    {
      stateDetails := Some(v.details);
      districtsData := districtsList;
      sortedDistrictsData := districtsList;
      lastUpdated := v.details.lastUpdated;
      tested := v.details.tested;
      chartData := v.chart;
      isLoading := false;
      fetchedDistricts := v.districts;
    }

    /** `fetchStateTimelineData` once the payload is parsed. */
    method FetchStateTimelineData(data: Object<History>)
      modifies this`timelineData
      ensures timelineData == LastN(FormatTimeline(HistoryDates(data, stateId)), 10)
    {
      var stateTimeline := HistoryDates(data, stateId);
      var formattedData := FormatTimeline(stateTimeline);
      timelineData := LastN(formattedData, 10);
    }

    /**
     * `handleCardClick(type)`, with `field` for `type`: `districtsData` is sorted in place by the
     * chosen count and `sortedDistrictsData` becomes that same array.
     */
    method HandleCardClick(field: Field)
      requires Valid()
      modifies this`sortBy, this`sortedDistrictsData, districtsData
      ensures Valid()
      ensures sortBy == field && districtsData == old(districtsData) && sortedDistrictsData == districtsData
      ensures districtsData[..] == Sort(old(districtsData[..]), ByCountDesc(field))
      ensures stateDetails == old(stateDetails) && lastUpdated == old(lastUpdated) && tested == old(tested)
      ensures isLoading == old(isLoading) && chartData == old(chartData) && timelineData == old(timelineData)
    {
      SortInPlace(districtsData, ByCountDesc(field));
      sortBy := field;
      sortedDistrictsData := districtsData;
    }

    /**
     * The loop in `render` that lays the sorted districts out four to a row:
     * consecutive slices of four, the last one holding the remainder, which
     * together give back the list.
     */
    method DistrictGroups() returns (groups: seq<seq<District>>)
      ensures |groups| == (sortedDistrictsData.Length + 3) / 4
      ensures forall k :: 0 <= k < |groups| ==> 1 <= |groups[k]| <= 4
      ensures forall k :: 0 <= k < |groups| - 1 ==> |groups[k]| == 4
      ensures Flatten(groups) == sortedDistrictsData[..]
    {
      var districts := sortedDistrictsData[..];
      groups := [];
      var i := 0;
      while i < |districts|
        invariant Grouped(districts, groups, i)
      {
        GroupStep(districts, groups, i);
        groups := groups + [districts[i..Min(i + 4, |districts|)]];
        i := i + 4;
      }
      GroupedAll(districts, groups, i);
    }
  }
}
