/** Helpers shared by the checker facades: the low-coordination verdict for metals that
    usually have many neighbours, the refusal of disordered structures, and the equality
    of immutable structures by their dictionary hash. */
module Utils {
  import opened Wrappers
  import opened Crystal

  // ---------------------------------------------------------------------------------
  // `_check_metal_coordination`

  /** Symbols that are singled out next to the lanthanoids and actinoids. */
  const HeavyLowCnSymbols: set<Element> := {"Mo", "Cr", "Hf", "Mb"}

  /** Elements that are expected to keep many neighbours. */
  predicate ExpectsManyNeighbors(t: PeriodicTable, el: Element) {
    el in t.lanthanoids || el in t.actinoids || el in HeavyLowCnSymbols
  }

  /** A metal is suspiciously under-coordinated when it is one of the elements expected
      to keep many neighbours and has at most four. Alkali and alkaline-earth metals are
      not judged. */
  function CheckMetalCoordination(t: PeriodicTable, el: Element, cn: nat): (r: bool)
    ensures r ==> cn <= 4
    ensures !ExpectsManyNeighbors(t, el) ==> !r
    ensures ExpectsManyNeighbors(t, el) ==> (r <==> cn <= 4)
  {
    ExpectsManyNeighbors(t, el) && cn <= 4
  }

  /** Losing neighbours never clears the verdict. */
  lemma MetalCoordinationAntitone(t: PeriodicTable, el: Element, cn: nat, fewer: nat)
    requires fewer <= cn && CheckMetalCoordination(t, el, cn)
    ensures CheckMetalCoordination(t, el, fewer)
  {
  }

  // ---------------------------------------------------------------------------------
  // `_check_if_ordered`

  /** The species on a site with their occupancies. */
  type Occupancy = seq<(Element, real)>

  /** A site is ordered when it holds exactly one species at full occupancy. */
  predicate SiteOrdered(occ: Occupancy) {
    |occ| == 1 && occ[0].1 == 1.0
  }

  predicate IsOrdered(sites: seq<Occupancy>) {
    forall i :: 0 <= i < |sites| ==> SiteOrdered(sites[i])
  }

  datatype OrderError =
    | PartialOccupancy               // NotImplementedError for unordered structures
    | UnsupportedElement(el: Element) // NotImplementedError naming the first element without a radius

  /** Index of the first site whose species has no atomic radius; `|sites|` when none. */
  function FirstWithoutRadius(t: PeriodicTable, sites: seq<Occupancy>): (k: nat)
    requires IsOrdered(sites)
    ensures k <= |sites|
    ensures forall i :: 0 <= i < k ==> sites[i][0].0 in t.withAtomicRadius
    ensures k < |sites| ==> sites[k][0].0 !in t.withAtomicRadius
  {
    if |sites| == 0 then 0
    else if sites[0][0].0 !in t.withAtomicRadius then 0
    else 1 + FirstWithoutRadius(t, sites[1..])
  }

  /** Disordered structures are refused first; an ordered one is refused at the first site
      whose element has no atomic radius. */
  function CheckIfOrdered(t: PeriodicTable, sites: seq<Occupancy>): (r: Result<(), OrderError>)
    ensures r == Failure(PartialOccupancy) <==> !IsOrdered(sites)
    ensures r.Success? <==>
      IsOrdered(sites) && forall i :: 0 <= i < |sites| ==> sites[i][0].0 in t.withAtomicRadius
    ensures r.Failure? && r.error.UnsupportedElement? ==>
      exists k :: 0 <= k < |sites| && sites[k][0].0 == r.error.el && r.error.el !in t.withAtomicRadius
        && forall i :: 0 <= i < k ==> sites[i][0].0 in t.withAtomicRadius
  {
    if !IsOrdered(sites) then Failure(PartialOccupancy)
    else
      var k := FirstWithoutRadius(t, sites);
      if k == |sites| then Success(()) else Failure(UnsupportedElement(sites[k][0].0))
  }

  /** The species sequence an accepted structure hands to the checks. */
  function OrderedSpecies(sites: seq<Occupancy>): (species: seq<Element>)
    requires IsOrdered(sites)
    ensures |species| == |sites|
    ensures forall i :: 0 <= i < |sites| ==> species[i] == sites[i][0].0
  {
    seq(|sites|, i requires 0 <= i < |sites| => sites[i][0].0)
  }

  /** Every species of an accepted structure has an atomic radius. */
  lemma AcceptedHaveRadii(t: PeriodicTable, sites: seq<Occupancy>)
    requires CheckIfOrdered(t, sites).Success?
    ensures forall el :: el in OrderedSpecies(sites) ==> el in t.withAtomicRadius
  {
  }

  // ---------------------------------------------------------------------------------
  // `IStructure.__eq__`

  /** An immutable structure as its equality sees it: the JSON text of its dictionary
      form with sorted keys. `dictHash` is Python's `hash` of that text. */
  datatype IStructure = IStructure(sortedJson: string)

  predicate SameStructure(dictHash: string -> int, a: IStructure, b: IStructure) {
    dictHash(a.sortedJson) == dictHash(b.sortedJson)
  }

  /** Equality by hash is an equivalence, and structures with the same dictionary are
      equal. */
  lemma SameStructureIsEquivalence(dictHash: string -> int, a: IStructure, b: IStructure, c: IStructure)
    ensures SameStructure(dictHash, a, a)
    ensures SameStructure(dictHash, a, b) ==> SameStructure(dictHash, b, a)
    ensures SameStructure(dictHash, a, b) && SameStructure(dictHash, b, c) ==> SameStructure(dictHash, a, c)
    ensures a.sortedJson == b.sortedJson ==> SameStructure(dictHash, a, b)
  {
  }
}
