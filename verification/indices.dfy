/** Selection of site indices by element category, and the metal-neighbour test. */
module Indices {
  import opened Seqs
  import opened Crystal

  /** The keys of the index dictionary. */
  datatype Category = Carbon | Hydrogen | Nitrogen | Oxygen | Metal | RareEarth | AlkaliAlkaline | Halogen

  /** `is_metal`: membership of the species string in METALS. */
  predicate IsMetal(t: PeriodicTable, e: Element) {
    e in t.metals
  }

  /** Which species fall into a category. */
  predicate InCategory(t: PeriodicTable, c: Category, e: Element) {
    match c
    case Carbon => e == "C"
    case Hydrogen => e == "H"
    case Nitrogen => e == "N"
    case Oxygen => e == "O"
    case Metal => IsMetal(t, e)
    case RareEarth => e in t.rareEarth
    case AlkaliAlkaline => e in t.alkali || e in t.alkaline
    case Halogen => e in t.halogens
  }

  /** The index list stored under a category: every site of that category, ascending. */
  function IndicesOf(t: PeriodicTable, c: Category, species: seq<Element>): (r: seq<nat>)
    ensures forall i: nat :: i in r <==> i < |species| && InCategory(t, c, species[i])
    ensures StrictlyIncreasing(r)
    ensures forall k :: 0 <= k < |r| ==> r[k] < |species|
  {
    Positions(species, e => InCategory(t, c, e))
  }

  /** The C, H, N and O lists never share an index. */
  lemma SingleElementListsDisjoint(t: PeriodicTable, species: seq<Element>, c: Category, d: Category, i: nat)
    requires c in {Carbon, Hydrogen, Nitrogen, Oxygen} && d in {Carbon, Hydrogen, Nitrogen, Oxygen}
    requires c != d
    ensures !(i in IndicesOf(t, c, species) && i in IndicesOf(t, d, species))
  {
  }

  /** `_is_any_neighbor_metal`: does some entry of a connected-site list sit on a metal. */
  function AnyNeighborMetal(t: PeriodicTable, s: Structure, nbs: seq<ConnectedSite>): (b: bool)
    ensures b <==> exists k :: 0 <= k < |nbs| && IsMetal(t, SpeciesAt(s, nbs[k].index))
  {
    if |nbs| == 0 then false
    else IsMetal(t, SpeciesAt(s, nbs[0].index)) || AnyNeighborMetal(t, s, nbs[1..])
  }
}
