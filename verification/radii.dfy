/** Covalent and van der Waals radius lookups. An element missing from a table gets the
    median of all the table's values, as numpy computes it. */
module Radii {
  import opened Wrappers
  import opened Crystal

  /** A radius table in the order of its dictionary literal. */
  datatype RadiusTable = RadiusTable(entries: seq<(Element, real)>)

  /** No element is listed twice. */
  predicate DistinctElements(t: RadiusTable) {
    forall i, j :: 0 <= i < j < |t.entries| ==> t.entries[i].0 != t.entries[j].0
  }

  /** `list(TABLE.values())`. */
  function Values(t: RadiusTable): (vs: seq<real>)
    ensures |vs| == |t.entries| && forall k :: 0 <= k < |vs| ==> vs[k] == t.entries[k].1
  {
    seq(|t.entries|, k requires 0 <= k < |t.entries| => t.entries[k].1)
  }

  /** Dictionary lookup: the value stored for `e`, if any. */
  function Lookup(t: RadiusTable, e: Element): (r: Option<real>)
    ensures r.Some? <==> exists k :: 0 <= k < |t.entries| && t.entries[k].0 == e
    ensures r.Some? ==> exists k :: 0 <= k < |t.entries| && t.entries[k] == (e, r.value)
    decreases |t.entries|
  {
    if |t.entries| == 0 then None
    else if t.entries[0].0 == e then Some(t.entries[0].1)
    else
      var rest := Lookup(RadiusTable(t.entries[1..]), e);
      assert forall k :: 1 <= k < |t.entries| ==> t.entries[k] == t.entries[1..][k - 1];
      assert (exists k :: 0 <= k < |t.entries| && t.entries[k].0 == e) ==> exists k :: 0 <= k < |t.entries[1..]| && t.entries[1..][k].0 == e;
      rest
  }

  // ---------------------------------------------------------------------------------
  // numpy median

  predicate Sorted(s: seq<real>) {
    forall i, j :: 0 <= i < j < |s| ==> s[i] <= s[j]
  }

  function Insert(x: real, s: seq<real>): (r: seq<real>)
    requires Sorted(s)
    ensures |r| == |s| + 1
    ensures r[0] == (if |s| == 0 || x <= s[0] then x else s[0])
    ensures Sorted(r)
    ensures multiset(r) == multiset(s) + multiset{x}
  {
    if |s| == 0 then [x]
    else if x <= s[0] then [x] + s
    else
      var rest := Insert(x, s[1..]);
      assert s == [s[0]] + s[1..];
      assert forall k :: 0 <= k < |rest| ==> s[0] <= rest[0] <= rest[k];
      [s[0]] + rest
  }

  /** Ascending order of the same values. */
  function Sort(s: seq<real>): (r: seq<real>)
    ensures Sorted(r) && multiset(r) == multiset(s)
  {
    if |s| == 0 then []
    else
      assert s == [s[0]] + s[1..];
      Insert(s[0], Sort(s[1..]))
  }

  /** `np.median` of a non-empty list: the middle of the sorted values, or the mean of the
      two middle ones. It lies between the smallest and the largest value. */
  function Median(s: seq<real>): (r: real)
    requires |s| > 0
    ensures (exists i :: 0 <= i < |s| && s[i] <= r) && (exists j :: 0 <= j < |s| && r <= s[j])
  {
    var sorted := Sort(s);
    var n := |sorted|;
    assert |sorted| == |multiset(sorted)| == |multiset(s)| == |s|;
    var lo := sorted[(n - 1) / 2];
    var hi := sorted[n / 2];
    assert lo in multiset(s) && hi in multiset(s);
    assert lo <= hi;
    if n % 2 == 1 then hi else (lo + hi) / 2.0
  }

  /** `_get_covalent_radius` and `_get_vdw_radius`: the table value of a listed element,
      otherwise the table median. */
  function RadiusOf(t: RadiusTable, e: Element): (r: real)
    requires |t.entries| > 0
    ensures (exists k :: 0 <= k < |t.entries| && t.entries[k].0 == e) ==> exists k :: 0 <= k < |t.entries| && t.entries[k] == (e, r)
    ensures (forall k :: 0 <= k < |t.entries| ==> t.entries[k].0 != e) ==> r == Median(Values(t))
    ensures exists i :: 0 <= i < |t.entries| && t.entries[i].1 <= r
    ensures exists j :: 0 <= j < |t.entries| && r <= t.entries[j].1
  {
    match Lookup(t, e)
    case Some(v) => v
    case None => Median(Values(t))
  }

  /** With distinct elements, a listed element gets exactly its own entry. */
  lemma ListedRadius(t: RadiusTable, e: Element, k: nat)
    requires DistinctElements(t) && k < |t.entries| && t.entries[k].0 == e
    ensures RadiusOf(t, e) == t.entries[k].1
  {
    var r := RadiusOf(t, e);
    var j :| 0 <= j < |t.entries| && t.entries[j] == (e, r);
    assert j == k;
  }

  /** The two radius tables of the package. */
  datatype RadiusTables = RadiusTables(covalent: RadiusTable, vdw: RadiusTable)

  /** `_get_covalent_radius`. */
  function CovalentRadius(tables: RadiusTables, e: Element): (r: real)
    requires |tables.covalent.entries| > 0
    ensures Lookup(tables.covalent, e).Some? ==> r == Lookup(tables.covalent, e).value
    ensures Lookup(tables.covalent, e).None? ==> r == Median(Values(tables.covalent))
  {
    RadiusOf(tables.covalent, e)
  }

  /** `_get_vdw_radius`. */
  function VdwRadius(tables: RadiusTables, e: Element): (r: real)
    requires |tables.vdw.entries| > 0
    ensures Lookup(tables.vdw, e).Some? ==> r == Lookup(tables.vdw, e).value
    ensures Lookup(tables.vdw, e).None? ==> r == Median(Values(tables.vdw))
  {
    RadiusOf(tables.vdw, e)
  }
}
