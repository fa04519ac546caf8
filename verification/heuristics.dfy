/** Decision rules for missing hydrogens on carbon and nitrogen, in their current and
    their legacy form, and the arity of the hydrogen-placing helpers. Angles are in
    degrees and, like dihedrals and distances, are given as exact values. */
module Heuristics {
  import opened Wrappers
  import opened Seqs
  import opened Crystal
  import opened Indices

  function Abs(x: real): real {
    if x < 0.0 then -x else x
  }

  /** `_maximum_angle`: the larger of an angle and its distance to 180 degrees. */
  function MaximumAngle(a: real): (r: real)
    ensures r >= a && r >= Abs(180.0 - a)
    ensures r == a || r == Abs(180.0 - a)
    ensures 0.0 <= a <= 180.0 ==> 90.0 <= r <= 180.0
  {
    if a >= Abs(180.0 - a) then a else Abs(180.0 - a)
  }

  /** For an angle between 0 and 180 degrees, the carbon test `|180 - _maximum_angle(a)| > tol`
      says that the angle is more than `tol` away from both 0 and 180 degrees. */
  lemma BentCarbonAngle(a: real, tol: real)
    requires 0.0 <= a <= 180.0
    ensures Abs(180.0 - MaximumAngle(a)) > tol <==> a > tol && 180.0 - a > tol
  {
  }

  /** The angle is within `tol` of 180 or of 0 degrees: an sp nitrogen. */
  predicate NearLinear(a: real, tol: real) {
    Abs(180.0 - a) < tol || Abs(0.0 - a) < tol
  }

  /** `make_vec` without a length: the vector from `start` to `end`. */
  function MakeVec(start: Vec3, end: Vec3): (v: Vec3)
    ensures Vec3(start.x + v.x, start.y + v.y, start.z + v.z) == end
  {
    Vec3(end.x - start.x, end.y - start.y, end.z - start.z)
  }

  // ---------------------------------------------------------------------------------
  // Hydrogen placement: coordinates come from `m.hydrogen`; the model keeps the arity
  // checks of the helpers and the number of positions each returns.

  datatype PlacementError = AssertionError | IndexError

  /** `add_sp_hydrogen`: asserts exactly one neighbour, returns one position. */
  function AddSpHydrogen(m: Measurements, site: nat, nbs: seq<ConnectedSite>): (r: Result<Vec3, PlacementError>)
    ensures r.Success? <==> |nbs| == 1
    ensures r.Failure? ==> r.error == AssertionError
  {
    if |nbs| != 1 then Failure(AssertionError) else Success(m.hydrogen(site, 0))
  }

  /** `add_sp2_hydrogen`: asserts exactly two neighbours, returns one position. */
  function AddSp2Hydrogen(m: Measurements, site: nat, nbs: seq<ConnectedSite>): (r: Result<Vec3, PlacementError>)
    ensures r.Success? <==> |nbs| == 2
    ensures r.Failure? ==> r.error == AssertionError
  {
    if |nbs| != 2 then Failure(AssertionError) else Success(m.hydrogen(site, 0))
  }

  /** `add_methylene_hydrogens`: asserts exactly two neighbours, returns two positions. */
  function AddMethyleneHydrogens(m: Measurements, site: nat, nbs: seq<ConnectedSite>): (r: Result<seq<Vec3>, PlacementError>)
    ensures r.Success? <==> |nbs| == 2
    ensures r.Success? ==> |r.value| == 2
  {
    if |nbs| != 2 then Failure(AssertionError) else Success([m.hydrogen(site, 0), m.hydrogen(site, 1)])
  }

  /** `add_sp3_hydrogen`: reads the first two neighbours without an assertion, so fewer than
      two raise an index error; returns one position. */
  function AddSp3Hydrogen(m: Measurements, site: nat, nbs: seq<ConnectedSite>): (r: Result<Vec3, PlacementError>)
    ensures r.Success? <==> |nbs| >= 2
    ensures r.Failure? ==> r.error == IndexError
  {
    if |nbs| < 2 then Failure(IndexError) else Success(m.hydrogen(site, 0))
  }

  /** `add_sp3_hydrogens_on_cn1`: reads the first neighbour, returns three positions. */
  function AddSp3HydrogensOnCn1(m: Measurements, site: nat, nbs: seq<ConnectedSite>): (r: Result<seq<Vec3>, PlacementError>)
    ensures r.Success? <==> |nbs| >= 1
    ensures r.Success? ==> |r.value| == 3
  {
    if |nbs| < 1 then Failure(IndexError) else Success([m.hydrogen(site, 0), m.hydrogen(site, 1), m.hydrogen(site, 2)])
  }

  // ---------------------------------------------------------------------------------
  // Nitrogen with three neighbours

  /** Number of neighbour entries that are hydrogen. */
  function HydrogenNeighbors(s: Structure, nbs: seq<ConnectedSite>): nat {
    Count(nbs, (nb: ConnectedSite) => SpeciesAt(s, nb.index) == "H")
  }

  /** `_guess_underbound_nitrogen_cn3`: the angle at the site between its first two
      neighbours is below 110 + tol, some neighbour is a metal, and exactly two neighbours
      are hydrogen. The third neighbour takes no part in the angle. */
  function UnderboundNitrogenCn3(t: PeriodicTable, s: Structure, m: Measurements, i: nat, tol: real): (b: bool)
    ensures b <==> m.siteAngle(i) < 110.0 + tol
                   && (exists k :: 0 <= k < Cn(s, i) && IsMetal(t, SpeciesAt(s, ConnectedSites(s, i)[k].index)))
                   && HydrogenNeighbors(s, ConnectedSites(s, i)) == 2
    ensures b ==> exists k :: 0 <= k < Cn(s, i) && SpeciesAt(s, ConnectedSites(s, i)[k].index) == "H"
  {
    var nbs := ConnectedSites(s, i);
    m.siteAngle(i) < 110.0 + tol && AnyNeighborMetal(t, s, nbs) && HydrogenNeighbors(s, nbs) == 2
  }

  /** The legacy rule: the smallest of the three angles `get_angle(site, a, b)` over the
      neighbour pairs, plus `tol`, is below 110, with the same metal and hydrogen conditions. */
  function LegacyUnderboundNitrogenCn3(t: PeriodicTable, s: Structure, m: Measurements, i: nat, tol: real): (b: bool)
    requires Cn(s, i) >= 3
    ensures var nbs := ConnectedSites(s, i);
            b <==> (exists p, q :: 0 <= p < q < 3 && m.angle(i, nbs[p].index, nbs[q].index) + tol < 110.0)
                   && (exists k :: 0 <= k < Cn(s, i) && IsMetal(t, SpeciesAt(s, nbs[k].index)))
                   && HydrogenNeighbors(s, nbs) == 2
  {
    var nbs := ConnectedSites(s, i);
    var a := m.angle(i, nbs[0].index, nbs[1].index);
    var b := m.angle(i, nbs[0].index, nbs[2].index);
    var c := m.angle(i, nbs[1].index, nbs[2].index);
    var least := if a <= b && a <= c then a else if b <= c then b else c;
    least + tol < 110.0 && AnyNeighborMetal(t, s, nbs) && HydrogenNeighbors(s, nbs) == 2
  }

  /** When the site angle is the smallest neighbour-pair angle, the legacy rule is the
      stricter one: whatever it flags, the current rule flags too. */
  lemma LegacyCn3Stricter(t: PeriodicTable, s: Structure, m: Measurements, i: nat, tol: real)
    requires Cn(s, i) >= 3 && tol >= 0.0
    requires forall p, q :: 0 <= p < q < 3 ==>
               m.siteAngle(i) <= m.angle(i, ConnectedSites(s, i)[p].index, ConnectedSites(s, i)[q].index)
    ensures LegacyUnderboundNitrogenCn3(t, s, m, i, tol) ==> UnderboundNitrogenCn3(t, s, m, i, tol)
  {
  }

  // ---------------------------------------------------------------------------------
  // Nitrogen with two neighbours

  /** The first connected site of a neighbour (`connected_sites_a[0]`). */
  function FirstNeighborOf(s: Structure, j: nat): nat
    requires Cn(s, j) > 0
  {
    ConnectedSites(s, j)[0].index
  }

  /** Magnitudes of the four dihedrals the current CN-2 rule inspects. */
  function Cn2Dihedrals(s: Structure, m: Measurements, i: nat): (ds: seq<real>)
    requires WellFormed(s) && i < Size(s) && Cn(s, i) >= 2
    ensures |ds| == 4 && forall k :: 0 <= k < 4 ==> ds[k] >= 0.0
  {
    var n0 := ConnectedSites(s, i)[0].index;
    var n1 := ConnectedSites(s, i)[1].index;
    var a0 := FirstNeighborOf(s, n0);
    var b0 := FirstNeighborOf(s, n1);
    [Abs(m.dihedral(n0, i, n1, a0)), Abs(m.dihedral(n0, i, n1, b0)),
     Abs(m.dihedral(b0, n0, i, n1)), Abs(m.dihedral(a0, n0, i, n1))]
  }

  function Min4(ds: seq<real>): (r: real)
    requires |ds| == 4
    ensures forall k :: 0 <= k < 4 ==> r <= ds[k]
    ensures exists k :: 0 <= k < 4 && r == ds[k]
  {
    var ab := if ds[0] <= ds[1] then ds[0] else ds[1];
    var cd := if ds[2] <= ds[3] then ds[2] else ds[3];
    if ab <= cd then ab else cd
  }

  /** `_guess_underbound_nitrogen_cn2`: a bent nitrogen is suspicious when the smallest
      dihedral magnitude is within `tol` of 0 or of 180 degrees, unless both bonds are shorter
      than 1.4. Stated without the minimum: some dihedral is nearly 0, or every dihedral
      is above 180 - tol and some is below 180 + tol. */
  function UnderboundNitrogenCn2(s: Structure, m: Measurements, i: nat, tol: real): (b: bool)
    requires WellFormed(s) && i < Size(s) && Cn(s, i) >= 2
    ensures var ds := Cn2Dihedrals(s, m, i);
            b <==> !NearLinear(m.siteAngle(i), tol)
                   && ((exists k :: 0 <= k < 4 && ds[k] < tol)
                       || ((forall k :: 0 <= k < 4 ==> ds[k] > 180.0 - tol) && (exists k :: 0 <= k < 4 && ds[k] < 180.0 + tol)))
                   && !(m.distance(i, ConnectedSites(s, i)[0].index) < 1.4 && m.distance(i, ConnectedSites(s, i)[1].index) < 1.4)
  {
    if NearLinear(m.siteAngle(i), tol) then false
    else
      var least := Min4(Cn2Dihedrals(s, m, i));
      if Abs(least - 180.0) < tol || Abs(least - 0.0) < tol then
        !(m.distance(i, ConnectedSites(s, i)[0].index) < 1.4 && m.distance(i, ConnectedSites(s, i)[1].index) < 1.4)
      else false
  }

  /** The legacy CN-2 rule: linear is fine; an angle below 115 is suspicious unless the
      mean of two dihedrals is within `tol` of 0 or 180; a wider angle is suspicious only
      when a neighbour is hydrogen. The angle is `get_angle(site, n0, n1)`. */
  function LegacyUnderboundNitrogenCn2(s: Structure, m: Measurements, i: nat, tol: real): (b: bool)
    requires WellFormed(s) && i < Size(s) && Cn(s, i) >= 2
    ensures var nbs := ConnectedSites(s, i);
            var angle := m.angle(i, nbs[0].index, nbs[1].index);
            var mean := (m.dihedral(i, nbs[0].index, nbs[1].index, FirstNeighborOf(s, nbs[0].index))
                         + m.dihedral(i, nbs[0].index, nbs[1].index, FirstNeighborOf(s, nbs[1].index))) / 2.0;
            (NearLinear(angle, tol) ==> !b)
            && (!NearLinear(angle, tol) && angle < 115.0 ==> (b <==> !NearLinear(mean, tol)))
            && (!NearLinear(angle, tol) && angle >= 115.0 ==>
                  (b <==> exists k :: 0 <= k < 2 && SpeciesAt(s, nbs[k].index) == "H"))
  {
    var nbs := ConnectedSites(s, i);
    var n0 := nbs[0].index;
    var n1 := nbs[1].index;
    var angle := m.angle(i, n0, n1);
    if NearLinear(angle, tol) then false
    else if angle < 115.0 then
      var mean := (m.dihedral(i, n0, n1, FirstNeighborOf(s, n0)) + m.dihedral(i, n0, n1, FirstNeighborOf(s, n1))) / 2.0;
      !(Abs(mean - 180.0) < tol || Abs(mean - 0.0) < tol)
    else
      SpeciesAt(s, n0) == "H" || SpeciesAt(s, n1) == "H"
  }
}
