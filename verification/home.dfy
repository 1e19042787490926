/**
 * The list view (`Home`): one summary row per state, a case-insensitive
 * search box, and ascending/descending sort buttons on the state name.
 */
module Home {
  import opened Wrappers
  import opened Payload
  import opened Text
  import opened StableSort

  /** The fixed table from state code to display name. */
  const StateCodeToFullName: map<string, string> := map[
    "AP" := "Andhra Pradesh",
    "AN" := "Andaman and Nicobar Islands",
    "AR" := "Arunachal Pradesh",
    "AS" := "Assam",
    "BR" := "Bihar",
    "CH" := "Chandigarh",
    "CT" := "Chhattisgarh",
    "DD" := "Daman and Diu",
    "DH" := "Dadra and Nagar Haveli",
    "DL" := "Delhi",
    "DN" := "Dadra and Nagar Haveli",
    "GA" := "Goa",
    "GJ" := "Gujarat",
    "HR" := "Haryana",
    "HP" := "Himachal Pradesh",
    "JK" := "Jammu and Kashmir",
    "JH" := "Jharkhand",
    "KA" := "Karnataka",
    "KL" := "Kerala",
    "LA" := "Leh",
    "LD" := "Lakshadweep",
    "MP" := "Madhya Pradesh",
    "MH" := "Maharashtra",
    "MN" := "Manipur",
    "ML" := "Meghalaya",
    "MZ" := "Mizoram",
    "NL" := "Nagaland",
    "OR" := "Odisha",
    "PB" := "Punjab",
    "PY" := "Puducherry",
    "RJ" := "Rajasthan",
    "SK" := "Sikkim",
    "TN" := "Tamil Nadu",
    "TG" := "Telangana",
    "TR" := "Tripura",
    "UP" := "Uttar Pradesh",
    "UT" := "Uttarakhand",
    "WB" := "West Bengal"
  ]

  /** `stateCodeToFullName[code] || code`. */
  function StateName(code: string): (name: string)
    ensures code in StateCodeToFullName ==> name == StateCodeToFullName[code]
    ensures code !in StateCodeToFullName ==> name == code
  {
    if code in StateCodeToFullName then StateCodeToFullName[code] else code
  }

  /**
   * The table is not one-to-one: two codes share a name, so two rows of the
   * list can carry the same name, and then the name sort keeps them in
   * payload order in both directions.
   */
  lemma TableNamesCollide()
    ensures "DH" != "DN" && StateName("DH") == StateName("DN")
    ensures StateName("TT") == "TT"
  {
  }

  /** One row of the state-wise table. */
  datatype StateRecord = StateRecord(
    stateCode: string,
    stateName: string,
    confirmed: int,
    active: int,
    recovered: int,
    deceased: int,
    population: int)

  function StateRecordOf(code: string, entry: StateEntry): StateRecord {
    var t := TotalsOrEmpty(entry.total);
    var confirmed, recovered, deceased := OrZero(t.confirmed), OrZero(t.recovered), OrZero(t.deceased);
    StateRecord(code, StateName(code), confirmed, confirmed - (recovered + deceased),
                recovered, deceased, OrZero(MetaOrEmpty(entry.meta).population))
  }

  /**
   * The rows built from the totals payload: one per state code, in key order,
   * missing counts read as zero, and `active` derived from the other three
   * (so it may be negative).
   */
  function StatesList(data: Object<StateEntry>): (r: seq<StateRecord>)
    ensures |r| == |data|
    ensures forall i :: 0 <= i < |data| ==>
      && r[i].stateCode == data[i].0
      && r[i].stateName == StateName(data[i].0)
      && r[i].confirmed == OrZero(TotalsOrEmpty(data[i].1.total).confirmed)
      && r[i].recovered == OrZero(TotalsOrEmpty(data[i].1.total).recovered)
      && r[i].deceased == OrZero(TotalsOrEmpty(data[i].1.total).deceased)
      && r[i].population == OrZero(MetaOrEmpty(data[i].1.meta).population)
    ensures forall i :: 0 <= i < |r| ==> r[i].active == r[i].confirmed - (r[i].recovered + r[i].deceased)
  {
    if data == [] then [] else [StateRecordOf(data[0].0, data[0].1)] + StatesList(data[1..])
  }

  // ---------------------------------------------------------------- search

  /** `r` is `s` with some elements left out, the rest in their order. */
  ghost predicate IsSubsequence<T>(r: seq<T>, s: seq<T>)
    decreases |s|
  {
    if r == [] then true
    else if s == [] then false
    else (r[0] == s[0] && IsSubsequence(r[1..], s[1..])) || IsSubsequence(r, s[1..])
  }

  /** The lower-cased name of the row includes the (already lower-cased) term. */
  predicate Matches(st: StateRecord, term: string) {
    Contains(Lower(st.stateName), term)
  }

  /** `statesData.filter(...)`: the rows whose name matches, in list order. */
  function Search(states: seq<StateRecord>, term: string): (r: seq<StateRecord>)
    ensures IsSubsequence(r, states)
    ensures forall x :: multiset(r)[x] == if Matches(x, term) then multiset(states)[x] else 0
  {
    if states == [] then []
    else
      var rest := Search(states[1..], term);
      assert states == [states[0]] + states[1..];
      if Matches(states[0], term) then [states[0]] + rest else rest
  }

  /** An empty search box shows every row. */
  lemma {:induction false} SearchEmptyTerm(states: seq<StateRecord>)
    ensures Search(states, "") == states
  {
    if states != [] {
      SearchEmptyTerm(states[1..]);
      assert states == [states[0]] + states[1..];
    }
  }

  /** Filtering the filtered rows again with the same term changes nothing. */
  lemma {:induction false} SearchIdempotent(states: seq<StateRecord>, term: string)
    ensures Search(Search(states, term), term) == Search(states, term)
  {
    if states != [] {
      SearchIdempotent(states[1..], term);
      var rest := Search(states[1..], term);
      if Matches(states[0], term) {
        assert ([states[0]] + rest)[1..] == rest;
      }
    }
  }

  // ---------------------------------------------------------------- sort

  /**
   * Rows ordered by name under the collation `collate`, where
   * `collate(x, y)` stands for `x.localeCompare(y) <= 0`.
   */
  function ByName(collate: (string, string) -> bool): (StateRecord, StateRecord) -> bool {
    (a: StateRecord, b: StateRecord) => collate(a.stateName, b.stateName)
  }

  /** The comparator of `sortStates(order)`: ascending for 'asc', descending for anything else. */
  function NameOrder(order: string, collate: (string, string) -> bool): (le: (StateRecord, StateRecord) -> bool)
    ensures order == "asc" ==> forall a, b :: le(a, b) == collate(a.stateName, b.stateName)
    ensures order != "asc" ==> forall a, b :: le(a, b) == collate(b.stateName, a.stateName)
  {
    if order == "asc" then ByName(collate) else Flip(ByName(collate))
  }

  lemma ByNameIsTotalPreorder(collate: (string, string) -> bool)
    requires TotalPreorder(collate)
    ensures TotalPreorder(ByName(collate))
  {
    var le := ByName(collate);
    forall a, b ensures Comparable(le, a, b) {
      assert Comparable(collate, a.stateName, b.stateName);
    }
    forall a, b, c ensures Chained(le, a, b, c) {
      assert Chained(collate, a.stateName, b.stateName, c.stateName);
    }
  }

  lemma NameOrderIsTotalPreorder(order: string, collate: (string, string) -> bool)
    requires TotalPreorder(collate)
    ensures TotalPreorder(NameOrder(order, collate))
  {
    ByNameIsTotalPreorder(collate);
    FlipIsTotalPreorder(ByName(collate));
  }

  /**
   * `sortStates(order)` yields a stable permutation of the rows it is given,
   * ordered by name: non-decreasing for 'asc', non-increasing otherwise.
   */
  lemma SortStatesOrdersByName(rows: seq<StateRecord>, order: string, collate: (string, string) -> bool)
    requires TotalPreorder(collate)
    ensures var r := Sort(rows, NameOrder(order, collate));
      && multiset(r) == multiset(rows)
      && StablePermutation(r, rows, NameOrder(order, collate))
      && (order == "asc" ==> forall i, j :: 0 <= i < j < |r| ==> collate(r[i].stateName, r[j].stateName))
      && (order != "asc" ==> forall i, j :: 0 <= i < j < |r| ==> collate(r[j].stateName, r[i].stateName))
  {
    NameOrderIsTotalPreorder(order, collate);
    SortSpec(rows, NameOrder(order, collate));
  }

  /** Pressing the same sort button twice gives what pressing it once gives. */
  lemma SortStatesIdempotent(rows: seq<StateRecord>, order: string, collate: (string, string) -> bool)
    requires TotalPreorder(collate)
    ensures Sort(Sort(rows, NameOrder(order, collate)), NameOrder(order, collate))
         == Sort(rows, NameOrder(order, collate))
  {
    NameOrderIsTotalPreorder(order, collate);
    SortIdempotent(rows, NameOrder(order, collate));
  }

  /** When no two names collate equal, descending after ascending reverses the rows. */
  lemma DescendingReversesAscending(rows: seq<StateRecord>, collate: (string, string) -> bool)
    requires TotalPreorder(collate)
    requires NoTies(rows, ByName(collate))
    ensures var asc := Sort(rows, NameOrder("asc", collate));
      Sort(asc, NameOrder("desc", collate)) == Reverse(asc)
  {
    var le := ByName(collate);
    assert NameOrder("asc", collate) == le;
    assert NameOrder("desc", collate) == Flip(le) by {
      assert "desc"[0] != "asc"[0];
    }
    ByNameIsTotalPreorder(collate);
    var asc := Sort(rows, le);
    SortIsStable(rows, le);
    assert NoTies(asc, le) by {
      forall x ensures |Ties(asc, x, le)| <= 1 {
        assert Ties(asc, x, le) == Ties(rows, x, le);
      }
    }
    SortIdempotent(rows, le);
    SortFlipReverses(asc, le);
  }

  // ---------------------------------------------------------------- component

  /** The component's state and its three handlers; each `setState` is one atomic update. */
  class HomeComponent {
    var statesData: seq<StateRecord>
    var filteredData: seq<StateRecord>
    var searchTerm: string
    var loading: bool

    /** The rows on display are always drawn from the full list. */
    ghost predicate Valid()
      reads this
    {
      multiset(filteredData) <= multiset(statesData)
    }

    constructor ()
      ensures Valid()
      ensures statesData == [] && filteredData == [] && searchTerm == "" && loading
    {
      statesData, filteredData, searchTerm, loading := [], [], "", true;
    }

    /** `fetchStatesData` once the payload is parsed: both lists get the mapped rows. */
    method FetchStatesData(data: Object<StateEntry>)
      modifies this
      ensures Valid()
      ensures statesData == StatesList(data) && filteredData == statesData
      ensures !loading && searchTerm == old(searchTerm)
    {
      var statesList := StatesList(data);
      statesData, filteredData, loading := statesList, statesList, false;
    }

    /**
     * `handleSearch`: the lower-cased input is stored, and the rows shown are
     * filtered from the full list, never from the rows currently shown.
     */
    method HandleSearch(value: string)
      modifies this
      ensures Valid()
      ensures searchTerm == Lower(value)
      ensures filteredData == Search(statesData, searchTerm)
      ensures statesData == old(statesData) && loading == old(loading)
    {
      var term := Lower(value);
      var filtered := Search(statesData, term);
      searchTerm, filteredData := term, filtered;
    }

    /** `sortStates(order)`: the rows shown are replaced by a sorted copy of themselves. */
    method SortStates(order: string, collate: (string, string) -> bool)
      requires Valid()
      modifies this
      ensures Valid()
      ensures filteredData == Sort(old(filteredData), NameOrder(order, collate))
      ensures statesData == old(statesData) && searchTerm == old(searchTerm) && loading == old(loading)
    {
      var sortedData := Sort(filteredData, NameOrder(order, collate));
      filteredData := sortedData;
    }
  }

  /**
   * Typing the stored term back into the box shows the same rows: the stored
   * term is already lower case, and `handleSearch` filters the full list.
   * Filtering the rows found so far with that term changes nothing either.
   */
  lemma SearchAgainIsStable(states: seq<StateRecord>, value: string)
    ensures Search(states, Lower(Lower(value))) == Search(states, Lower(value))
    ensures Search(Search(states, Lower(value)), Lower(Lower(value))) == Search(states, Lower(value))
  {
    LowerIdempotent(value);
    SearchIdempotent(states, Lower(value));
  }

  /** Two states, Karnataka and Tamil Nadu, with small sample counts. */
  function TwoStates(): Object<StateEntry> {
    [("KA", StateEntry(None, Some(Totals(Some(100), Some(80), Some(5), None)), None)),
     ("TN", StateEntry(None, Some(Totals(Some(50), Some(40), Some(2), None)), None))]
  }

  const Karnataka := StateRecord("KA", "Karnataka", 100, 15, 80, 5, 0)
  const TamilNadu := StateRecord("TN", "Tamil Nadu", 50, 8, 40, 2, 0)

  /** The mapped rows: names from the table, active 100 - (80 + 5) and 50 - (40 + 2). */
  lemma TwoStatesRows()
    ensures StatesList(TwoStates()) == [Karnataka, TamilNadu]
  {
    var data := TwoStates();
    assert StateName("KA") == "Karnataka";
    assert StateName("TN") == "Tamil Nadu";
    assert data[1..][1..] == [];
  }

  lemma KarnatakaLacksTamil()
    ensures !Contains("karnataka", "tamil")
  {
    ContainsIff("karnataka", "tamil");
    forall i | 0 <= i <= 4 ensures !OccursAt("karnataka", "tamil", i) {
      assert "karnataka"[i..i + 5][0] == "karnataka"[i] != 't';
    }
  }

  lemma TwoStatesLower()
    ensures Lower("TAMIL") == "tamil"
    ensures Lower("Karnataka") == "karnataka"
    ensures Lower("Tamil Nadu") == "tamil nadu"
  {
  }

  lemma TamilSearchMatches()
    ensures Matches(TamilNadu, "tamil") && !Matches(Karnataka, "tamil")
  {
    TwoStatesLower();
    KarnatakaLacksTamil();
    assert "tamil nadu"[..5] == "tamil";
  }

  /** Searching "TAMIL" finds Tamil Nadu alone. */
  lemma TwoStatesSearch()
    ensures Search([Karnataka, TamilNadu], Lower("TAMIL")) == [TamilNadu]
  {
    TwoStatesLower();
    TamilSearchMatches();
    assert [Karnataka, TamilNadu][1..] == [TamilNadu];
    assert [TamilNadu][1..] == [];
  }

  /** Descending puts Tamil Nadu first; ascending puts Karnataka first, from either order. */
  lemma TwoStatesSort(collate: (string, string) -> bool)
    requires collate("Karnataka", "Tamil Nadu") && !collate("Tamil Nadu", "Karnataka")
    ensures Sort([Karnataka, TamilNadu], NameOrder("desc", collate)) == [TamilNadu, Karnataka]
    ensures Sort([TamilNadu, Karnataka], NameOrder("asc", collate)) == [Karnataka, TamilNadu]
    ensures Sort([Karnataka, TamilNadu], NameOrder("asc", collate)) == [Karnataka, TamilNadu]
  {
    assert "desc"[0] != "asc"[0];
    SortPair(Karnataka, TamilNadu, NameOrder("desc", collate));
    SortPair(TamilNadu, Karnataka, NameOrder("asc", collate));
    SortPair(Karnataka, TamilNadu, NameOrder("asc", collate));
  }
}
