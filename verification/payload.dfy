/**
 * The parsed JSON that the dashboard receives from its two endpoints.  A JSON
 * object is its list of entries in `Object.keys` order; a field the payload
 * does not carry is `None`.
 */
module Payload {
  import opened Wrappers

  /** A JSON object: its (key, value) entries in enumeration order. */
  type Object<V> = seq<(string, V)>

  /** The `total` block of a state, a district or a day. */
  datatype Totals = Totals(confirmed: Option<int>, recovered: Option<int>, deceased: Option<int>, tested: Option<int>)

  /** The `meta` block of a state. */
  datatype Meta = Meta(population: Option<int>, lastUpdated: Option<string>)

  /** A district's entry, or one day's entry of a state's history: just a `total` block. */
  datatype Snapshot = Snapshot(total: Option<Totals>)

  /** One state's entry in the totals endpoint's payload, keyed by state code. */
  datatype StateEntry = StateEntry(meta: Option<Meta>, total: Option<Totals>, districts: Option<Object<Snapshot>>)

  /** One state's entry in the history endpoint's payload: its days, keyed by date. */
  datatype History = History(dates: Option<Object<Snapshot>>)

  function Keys<V>(obj: Object<V>): (ks: seq<string>)
    ensures |ks| == |obj|
    ensures forall i :: 0 <= i < |obj| ==> ks[i] == obj[i].0
  {
    if obj == [] then [] else [obj[0].0] + Keys(obj[1..])
  }

  /** `obj[key]`: the value of the first entry with that key, if any. */
  function Lookup<V>(obj: Object<V>, key: string): (r: Option<V>)
    ensures r.None? <==> key !in Keys(obj)
    ensures r.Some? ==> (key, r.value) in obj
  {
    if obj == [] then None
    else if obj[0].0 == key then Some(obj[0].1)
    else
      assert Keys(obj) == [obj[0].0] + Keys(obj[1..]);
      Lookup(obj[1..], key)
  }

  /** `v || 0` on a count: a missing count reads as zero. */
  function OrZero(v: Option<int>): (n: int)
    ensures v.None? ==> n == 0
    ensures v.Some? ==> n == v.value
  {
    v.GetOr(0)
  }

  /** `x?.total || {}`: a missing `total` block reads as one with every count missing. */
  function TotalsOrEmpty(t: Option<Totals>): (r: Totals)
    ensures t.Some? ==> r == t.value
    ensures t.None? ==> r.confirmed.None? && r.recovered.None? && r.deceased.None? && r.tested.None?
  {
    t.GetOr(Totals(None, None, None, None))
  }

  /** `x?.meta || {}`. */
  function MetaOrEmpty(m: Option<Meta>): (r: Meta)
    ensures m.Some? ==> r == m.value
    ensures m.None? ==> r.population.None? && r.lastUpdated.None?
  {
    m.GetOr(Meta(None, None))
  }
}
