/** The legacy `MOFChecker`: one object that computes every verdict itself from the
    structure graph, memoising the over-valence and under-coordination answers, the
    porosity answer and the open-metal-site answer. */
module LegacyChecker {
  import opened Wrappers
  import opened Seqs
  import opened Crystal
  import opened Indices
  import opened Heuristics
  import opened Undercoordination
  import opened Oms
  import opened Graph
  import opened Utils
  import opened CheckBase
  import Coordination
  import ChargeCheck
  import Checker
  import opened LegacyMapping

  // ---------------------------------------------------------------------------------
  // Construction

  /** `str(species) in ["H", "D", "T"]`: hydrogen and its isotopes. */
  predicate HydrogenLike(e: Element) {
    e in {"H", "D", "T"}
  }

  /** The index lists the constructor stores. */
  datatype SiteLists = SiteLists(metal: seq<nat>, carbon: seq<nat>, hydrogen: seq<nat>, nitrogen: seq<nat>)

  function ListsOf(t: PeriodicTable, species: seq<Element>): (r: SiteLists)
    ensures forall i: nat :: i in r.metal <==> i < |species| && species[i] in t.metals
    ensures forall i: nat :: i in r.carbon <==> i < |species| && species[i] == "C"
    ensures forall i: nat :: i in r.hydrogen <==> i < |species| && HydrogenLike(species[i])
    ensures forall i: nat :: i in r.nitrogen <==> i < |species| && species[i] == "N"
    ensures StrictlyIncreasing(r.metal) && StrictlyIncreasing(r.carbon)
    ensures StrictlyIncreasing(r.hydrogen) && StrictlyIncreasing(r.nitrogen)
  {
    SiteLists(IndicesOf(t, Metal, species), IndicesOf(t, Carbon, species),
              Positions(species, HydrogenLike), IndicesOf(t, Nitrogen, species))
  }

  /** The properties whose answer is stored once computed. */
  datatype Memoised = OvervalentC | OvervalentH | OvervalentN | UndercoordinatedC | UndercoordinatedN

  /** The checker's state: the species, the index lists, the neighbour strategy, the
      stored boolean answers, the porosity answer (`None` while unset: the source uses
      the empty string) and the open-metal-site state. */
  datatype LegacyChecker = LegacyChecker(
    species: seq<Element>,
    lists: SiteLists,
    cnn: CnnState,
    memo: map<Memoised, bool>,
    porous: Option<Option<bool>>,
    oms: OmsMemo)

  /** The constructor: a disordered structure, or one with an element that has no atomic
      radius, is refused before anything else; otherwise the index lists are taken from
      the species, every memo starts empty and the VESTA cut-offs are chosen without
      porous adjustment. */
  function NewChecker(t: PeriodicTable, sites: seq<Occupancy>): (r: Result<LegacyChecker, OrderError>)
    ensures r.Failure? <==> CheckIfOrdered(t, sites).Failure?
    ensures r.Failure? ==> r.error == CheckIfOrdered(t, sites).error
    ensures r.Success? ==>
      && |r.value.species| == |sites|
      && (forall i :: 0 <= i < |sites| ==> r.value.species[i] == sites[i][0].0)
      && (forall i: nat :: i in r.value.lists.metal <==> i < |sites| && sites[i][0].0 in t.metals)
      && (forall i: nat :: i in r.value.lists.carbon <==> i < |sites| && sites[i][0].0 == "C")
      && (forall i: nat :: i in r.value.lists.hydrogen <==> i < |sites| && HydrogenLike(sites[i][0].0))
      && (forall i: nat :: i in r.value.lists.nitrogen <==> i < |sites| && sites[i][0].0 == "N")
      && r.value.cnn == CnnState(Some("vesta"), Some(VestaPreset), false)
      && r.value.memo == map[] && r.value.porous.None? && r.value.oms == OmsMemo({}, None)
  {
    match CheckIfOrdered(t, sites)
    case Failure(e) => Failure(e)
    case Success(_) =>
      var species := OrderedSpecies(sites);
      Success(LegacyChecker(species, ListsOf(t, species), SetCnn(UnsetCnn, "vesta", false),
                            map[], None, OmsMemo({}, None)))
  }

  // ---------------------------------------------------------------------------------
  // Scans that stop at the first hit

  /** A `for ... break` loop over an index list: does some listed index pass `p`. */
  function Any(sites: seq<nat>, p: nat -> bool): (r: bool)
    ensures r <==> exists i :: i in sites && p(i)
  {
    if |sites| == 0 then false
    else if p(sites[0]) then true
    else
      assert forall i :: i in sites <==> i == sites[0] || i in sites[1..];
      Any(sites[1..], p)
  }

  /** More than `limit` connected sites, none of them a metal. */
  predicate OvervalentSite(t: PeriodicTable, s: Structure, i: nat, limit: nat) {
    Cn(s, i) > limit && !AnyNeighborMetal(t, s, ConnectedSites(s, i))
  }

  // ---------------------------------------------------------------------------------
  // `_has_undercoordinated_carbon`

  const LegacyCarbonTolerance: real := 10.0

  /** Neither neighbour of a two-coordinated site may be a metal for it to count. */
  predicate NotBetweenMetals(t: PeriodicTable, s: Structure, i: nat)
    requires Cn(s, i) == 2
  {
    var nbs := ConnectedSites(s, i);
    !IsMetal(t, SpeciesAt(s, nbs[0].index)) || !IsMetal(t, SpeciesAt(s, nbs[1].index))
  }

  /** The angle at a two-coordinated site, folded by `_maximum_angle`. */
  function FoldedAngle(s: Structure, m: Measurements, i: nat): real
    requires Cn(s, i) == 2
  {
    var nbs := ConnectedSites(s, i);
    MaximumAngle(m.angle(i, nbs[0].index, nbs[1].index))
  }

  /** The carbon test as written: its second disjunct compares 180 with 0 instead of with
      the angle, so it holds for every tolerance below 180. */
  predicate CarbonSiteAsWritten(t: PeriodicTable, s: Structure, m: Measurements, i: nat, tol: real) {
    Cn(s, i) == 2
    && (Abs(180.0 - FoldedAngle(s, m, i)) > tol || Abs(180.0 - 0.0) > tol)
    && NotBetweenMetals(t, s, i)
    && m.vdwShell(i) <= 2
  }

  /** The carbon test as its documentation describes it: a two-coordinated carbon that is
      not linear, not bridging two metals and with at most two sites in its van der Waals
      shell. */
  predicate CarbonSite(t: PeriodicTable, s: Structure, m: Measurements, i: nat, tol: real) {
    Cn(s, i) == 2
    && Abs(180.0 - FoldedAngle(s, m, i)) > tol
    && NotBetweenMetals(t, s, i)
    && m.vdwShell(i) <= 2
  }

  /** As written, the angle plays no part at the default tolerance: every two-coordinated
      carbon off a metal pair with a thin shell is flagged. */
  function HasUndercoordinatedCarbonAsWritten(t: PeriodicTable, s: Structure, m: Measurements, carbon: seq<nat>): (r: bool)
    ensures r <==> exists i :: i in carbon && Cn(s, i) == 2 && NotBetweenMetals(t, s, i) && m.vdwShell(i) <= 2
  {
    Any(carbon, (i: nat) => CarbonSiteAsWritten(t, s, m, i, LegacyCarbonTolerance))
  }

  /** A linear O=C=O fragment: the carbon has two oxygen neighbours at 180 degrees and an
      empty shell. The test as written flags it; the intended test does not. */
  lemma LinearCarbonFlaggedAsWritten()
    ensures var t := PeriodicTable({}, {}, {}, {}, {}, {}, {}, {}, {});
            var s := Structure(["C", "O", "O"],
                               [[ConnectedSite(1, Image(0, 0, 0), 1.16), ConnectedSite(2, Image(0, 0, 0), 1.16)],
                                [ConnectedSite(0, Image(0, 0, 0), 1.16)],
                                [ConnectedSite(0, Image(0, 0, 0), 1.16)]]);
            var m := Measurements((a: nat, b: nat, c: nat) => 180.0, (a: nat) => 180.0,
                                  (a: nat, b: nat, c: nat, d: nat) => 0.0, (a: nat, b: nat) => 1.16,
                                  (a: nat) => 0, (a: nat) => 0, (a: nat) => None,
                                  (a: nat, name: string) => 0.0, (a: nat, k: nat) => Vec3(0.0, 0.0, 0.0));
            HasUndercoordinatedCarbonAsWritten(t, s, m, [0]) && !CarbonSite(t, s, m, 0, LegacyCarbonTolerance)
  {
    var t := PeriodicTable({}, {}, {}, {}, {}, {}, {}, {}, {});
    var s := Structure(["C", "O", "O"],
                       [[ConnectedSite(1, Image(0, 0, 0), 1.16), ConnectedSite(2, Image(0, 0, 0), 1.16)],
                        [ConnectedSite(0, Image(0, 0, 0), 1.16)],
                        [ConnectedSite(0, Image(0, 0, 0), 1.16)]]);
    var m := Measurements((a: nat, b: nat, c: nat) => 180.0, (a: nat) => 180.0,
                          (a: nat, b: nat, c: nat, d: nat) => 0.0, (a: nat, b: nat) => 1.16,
                          (a: nat) => 0, (a: nat) => 0, (a: nat) => None,
                          (a: nat, name: string) => 0.0, (a: nat, k: nat) => Vec3(0.0, 0.0, 0.0));
    assert Cn(s, 0) == 2;
    assert FoldedAngle(s, m, 0) == 180.0;
    assert CarbonSiteAsWritten(t, s, m, 0, LegacyCarbonTolerance);
  }

  /** The intended test flags a carbon only when its angle, between 0 and 180 degrees, is
      more than the tolerance away from both ends; whatever it flags, the test as written
      flags too. */
  lemma CarbonSiteNeedsBend(t: PeriodicTable, s: Structure, m: Measurements, i: nat, tol: real)
    requires Cn(s, i) == 2
    requires var nbs := ConnectedSites(s, i); 0.0 <= m.angle(i, nbs[0].index, nbs[1].index) <= 180.0
    ensures var nbs := ConnectedSites(s, i); var a := m.angle(i, nbs[0].index, nbs[1].index);
            CarbonSite(t, s, m, i, tol) <==>
              tol < a < 180.0 - tol && NotBetweenMetals(t, s, i) && m.vdwShell(i) <= 2
    ensures CarbonSite(t, s, m, i, tol) ==> CarbonSiteAsWritten(t, s, m, i, tol)
  {
    var nbs := ConnectedSites(s, i);
    BentCarbonAngle(m.angle(i, nbs[0].index, nbs[1].index), tol);
  }

  // ---------------------------------------------------------------------------------
  // `_has_undercoordinated_nitrogen`

  /** The facade passes tolerance 15 to the nitrogen heuristics (the check class uses 10). */
  const FacadeNitrogenTolerance: real := 15.0

  /** The facade's nitrogen rule by coordination number: a terminal nitrogen on a
      non-metal with more than two neighbours, or the legacy CN-2 or CN-3 heuristic at
      tolerance 15. */
  predicate NitrogenSite(t: PeriodicTable, s: Structure, m: Measurements, i: nat)
    requires WellFormed(s) && i < Size(s)
  {
    if Cn(s, i) == 1 then TerminalNitrogen(t, s, i)
    else if Cn(s, i) == 2 then LegacyUnderboundNitrogenCn2(s, m, i, FacadeNitrogenTolerance)
    else if Cn(s, i) == 3 then LegacyUnderboundNitrogenCn3(t, s, m, i, FacadeNitrogenTolerance)
    else false
  }

  /** A wider tolerance only clears sites: whatever the facade flags, the legacy check
      class, with tolerance 10, flags as well. */
  lemma FacadeNitrogenStricter(t: PeriodicTable, s: Structure, m: Measurements, i: nat)
    requires WellFormed(s) && i < Size(s)
    ensures NitrogenSite(t, s, m, i) ==> LegacyUndercoordinatedNitrogenSite(t, s, m, i)
  {
    if Cn(s, i) == 2 {
      var nbs := ConnectedSites(s, i);
      var angle := m.angle(i, nbs[0].index, nbs[1].index);
      assert NearLinear(angle, LegacyNitrogenTolerance) ==> NearLinear(angle, FacadeNitrogenTolerance);
      var mean := (m.dihedral(i, nbs[0].index, nbs[1].index, FirstNeighborOf(s, nbs[0].index))
                   + m.dihedral(i, nbs[0].index, nbs[1].index, FirstNeighborOf(s, nbs[1].index))) / 2.0;
      assert NearLinear(mean, LegacyNitrogenTolerance) ==> NearLinear(mean, FacadeNitrogenTolerance);
    }
  }

  // ---------------------------------------------------------------------------------
  // The memoised properties

  /** Some listed site has more than `limit` connected sites and no metal among them. */
  predicate SomeOvervalent(t: PeriodicTable, s: Structure, sites: seq<nat>, limit: nat) {
    exists i :: i in sites && OvervalentSite(t, s, i, limit)
  }

  /** Some listed carbon passes the carbon test as written, at tolerance 10. */
  predicate SomeUndercoordinatedCarbon(t: PeriodicTable, s: Structure, m: Measurements, sites: seq<nat>) {
    exists i :: i in sites && CarbonSiteAsWritten(t, s, m, i, LegacyCarbonTolerance)
  }

  /** Some listed nitrogen passes the facade's nitrogen rule. */
  predicate SomeUndercoordinatedNitrogen(t: PeriodicTable, s: Structure, m: Measurements, sites: seq<nat>)
    requires WellFormed(s)
  {
    exists i :: i in sites && i < Size(s) && NitrogenSite(t, s, m, i)
  }

  /** What each memoised property answers: over-valence is more than 4 (C, N) or 1 (H, D,
      T) connected sites with no metal among them; the carbon property uses the carbon test
      as written, whose angle condition always holds, and the nitrogen property the
      facade's nitrogen rule. */
  predicate Holds(t: PeriodicTable, s: Structure, m: Measurements, lists: SiteLists, key: Memoised)
    requires WellFormed(s)
  {
    match key
    case OvervalentC => SomeOvervalent(t, s, lists.carbon, 4)
    case OvervalentH => SomeOvervalent(t, s, lists.hydrogen, 1)
    case OvervalentN => SomeOvervalent(t, s, lists.nitrogen, 4)
    case UndercoordinatedC => SomeUndercoordinatedCarbon(t, s, m, lists.carbon)
    case UndercoordinatedN => SomeUndercoordinatedNitrogen(t, s, m, lists.nitrogen)
  }

  /** The loops `_has_overvalent_c`, `_has_overvalent_h`, `_has_overvalent_n`,
      `_has_undercoordinated_carbon` and `_has_undercoordinated_nitrogen`: each walks its
      index list and stops at the first flagged site. */
  function Compute(t: PeriodicTable, s: Structure, m: Measurements, lists: SiteLists, key: Memoised): (r: bool)
    requires WellFormed(s)
    ensures r <==> Holds(t, s, m, lists, key)
  {
    match key
    case OvervalentC => Any(lists.carbon, (i: nat) => OvervalentSite(t, s, i, 4))
    case OvervalentH => Any(lists.hydrogen, (i: nat) => OvervalentSite(t, s, i, 1))
    case OvervalentN => Any(lists.nitrogen, (i: nat) => OvervalentSite(t, s, i, 4))
    case UndercoordinatedC => Any(lists.carbon, (i: nat) => CarbonSiteAsWritten(t, s, m, i, LegacyCarbonTolerance))
    case UndercoordinatedN => Any(lists.nitrogen, (i: nat) => i < Size(s) && NitrogenSite(t, s, m, i))
  }

  /** The memoised carbon property ignores the angle: it holds iff some listed carbon has
      two connected sites, not both metals, and at most two sites in its van der Waals
      shell. */
  lemma CarbonPropertyIgnoresAngle(t: PeriodicTable, s: Structure, m: Measurements, lists: SiteLists)
    requires WellFormed(s)
    ensures Holds(t, s, m, lists, UndercoordinatedC) <==>
              exists i :: i in lists.carbon && Cn(s, i) == 2 && NotBetweenMetals(t, s, i) && m.vdwShell(i) <= 2
  {
    assert Holds(t, s, m, lists, UndercoordinatedC) <==> HasUndercoordinatedCarbonAsWritten(t, s, m, lists.carbon);
  }

  /** Every stored answer is the one the computation gives. */
  predicate MemoSound(t: PeriodicTable, s: Structure, m: Measurements, c: LegacyChecker)
    requires WellFormed(s)
  {
    forall key :: key in c.memo ==> (c.memo[key] <==> Holds(t, s, m, c.lists, key))
  }

  /** The property getters: the stored answer when there is one, otherwise the computed
      one, which is stored. Nothing else in the checker changes. */
  function Property(t: PeriodicTable, s: Structure, m: Measurements, c: LegacyChecker, key: Memoised): (r: (LegacyChecker, bool))
    requires WellFormed(s)
    ensures r.0 == c.(memo := c.memo[key := r.1])
    ensures key in c.memo ==> r.1 == c.memo[key]
    ensures key !in c.memo ==> (r.1 <==> Holds(t, s, m, c.lists, key))
    ensures MemoSound(t, s, m, c) ==> MemoSound(t, s, m, r.0) && (r.1 <==> Holds(t, s, m, c.lists, key))
  {
    var v := if key in c.memo then c.memo[key] else Compute(t, s, m, c.lists, key);
    (c.(memo := c.memo[key := v]), v)
  }

  /** Asking twice gives the same answer and leaves the checker as the first call did. */
  lemma PropertyMemoised(t: PeriodicTable, s: Structure, m: Measurements, c: LegacyChecker, key: Memoised)
    requires WellFormed(s)
    ensures var first := Property(t, s, m, c, key);
            Property(t, s, m, first.0, key) == first
  {
    var first := Property(t, s, m, c, key);
    assert first.0.memo[key := first.1] == first.0.memo;
  }

  /** A new checker stores nothing, so every getter answers by computation. */
  lemma NewCheckerSound(t: PeriodicTable, sites: seq<Occupancy>, s: Structure, m: Measurements)
    requires WellFormed(s)
    requires NewChecker(t, sites).Success?
    ensures MemoSound(t, s, m, NewChecker(t, sites).value)
  {
  }

  /** A list of the sites of one element, and a check outcome listing exactly those of
      them that are over-coordinated: some listed site is over-valent iff the check fails. */
  lemma OvervalentListAgrees(t: PeriodicTable, s: Structure, list: seq<nat>, r: IndexOutcome, el: Element)
    requires forall i: nat :: i in list <==> i < Size(s) && s.species[i] == el
    requires r.ok <==> |r.indices| == 0
    requires forall i: nat :: i in r.indices <==>
               i < Size(s) && s.species[i] == el && Cn(s, i) > 4
               && !(exists k :: 0 <= k < Cn(s, i) && IsMetal(t, SpeciesAt(s, ConnectedSites(s, i)[k].index)))
    ensures SomeOvervalent(t, s, list, 4) <==> !r.ok
  {
    if exists i :: i in list && OvervalentSite(t, s, i, 4) {
      var i :| i in list && OvervalentSite(t, s, i, 4);
      assert i in r.indices;
    }
    if |r.indices| > 0 {
      var i := r.indices[0];
      assert i in r.indices;
      assert i in list && OvervalentSite(t, s, i, 4);
    }
  }

  /** On the species' own index lists, the facade's over-valent carbon answer is the
      negated verdict of the carbon over-coordination check. */
  lemma OvervalentCarbonAgrees(t: PeriodicTable, s: Structure, m: Measurements)
    requires WellFormed(s)
    ensures Holds(t, s, m, ListsOf(t, s.species), OvervalentC) <==> !Coordination.OverCoordinatedCarbon(t, s).ok
  {
    OvervalentListAgrees(t, s, ListsOf(t, s.species).carbon, Coordination.OverCoordinatedCarbon(t, s), "C");
  }

  /** The same for nitrogen and the nitrogen over-coordination check. */
  lemma OvervalentNitrogenAgrees(t: PeriodicTable, s: Structure, m: Measurements)
    requires WellFormed(s)
    ensures Holds(t, s, m, ListsOf(t, s.species), OvervalentN) <==> !Coordination.OverCoordinatedNitrogen(t, s).ok
  {
    OvervalentListAgrees(t, s, ListsOf(t, s.species).nitrogen, Coordination.OverCoordinatedNitrogen(t, s), "N");
  }

  /** When the facade finds an under-coordinated nitrogen, the legacy nitrogen check
      reports one too. */
  lemma UndercoordinatedNitrogenImpliesCheck(t: PeriodicTable, s: Structure, m: Measurements)
    requires WellFormed(s)
    requires Holds(t, s, m, ListsOf(t, s.species), UndercoordinatedN)
    ensures !LegacyUnderCoordinatedNitrogen(t, s, m).ok
  {
    var lists := ListsOf(t, s.species);
    var i :| i in lists.nitrogen && i < Size(s) && NitrogenSite(t, s, m, i);
    FacadeNitrogenStricter(t, s, m, i);
    assert i in LegacyUnderCoordinatedNitrogen(t, s, m).indices;
  }

  // ---------------------------------------------------------------------------------
  // `_has_lone_atom`

  /** The indices `0 .. n-1` in order. */
  function Range(n: nat): (r: seq<nat>)
    ensures |r| == n
    ensures forall k :: 0 <= k < n ==> r[k] == k
  {
    if n == 0 then [] else Range(n - 1) + [n - 1]
  }

  /** A site with no connected site; in the safe variant its van der Waals shell must be
      empty as well, since the neighbour strategy sometimes misses a bond. */
  function HasLoneAtom(s: Structure, m: Measurements, safe: bool): (r: bool)
    ensures r <==> exists i :: 0 <= i < Size(s) && Cn(s, i) == 0 && (!safe || m.vdwShell(i) == 0)
  {
    var sites := Range(Size(s));
    var p := (i: nat) => Cn(s, i) == 0 && (!safe || m.vdwShell(i) == 0);
    var lone := Any(sites, p);
    assert (exists i :: 0 <= i < Size(s) && Cn(s, i) == 0 && (!safe || m.vdwShell(i) == 0)) ==> lone by {
      if exists i :: 0 <= i < Size(s) && Cn(s, i) == 0 && (!safe || m.vdwShell(i) == 0) {
        var i :| 0 <= i < Size(s) && Cn(s, i) == 0 && (!safe || m.vdwShell(i) == 0);
        assert sites[i] == i && p(i);
      }
    }
    lone
  }

  /** The safe variant (the default) reports a subset of what the plain variant reports. */
  lemma SafeLoneAtomStricter(s: Structure, m: Measurements)
    ensures HasLoneAtom(s, m, true) ==> HasLoneAtom(s, m, false)
  {
  }

  // ---------------------------------------------------------------------------------
  // `_has_high_charges` and `_is_porous`

  /** `charges` is the list of partial charges, or None when the charge package is
      missing. With a list, the answer is whether some charge exceeds 3 in magnitude;
      without one, the answer is None. */
  function HasHighCharges(charges: Option<seq<real>>): (r: Option<bool>)
    ensures r.None? <==> charges.None?
    ensures r == Some(true) <==> charges.Some? && exists k :: 0 <= k < |charges.value| && Abs(charges.value[k]) > 3.0
  {
    match charges
    case None => None
    case Some(cs) => Some(Count(cs, (c: real) => Abs(c) > 3.0) > 0)
  }

  /** The legacy facade answers what the charge check, read through the documented
      tri-state, answers. */
  lemma HighChargesAgreeWithCheck(charges: Option<seq<real>>)
    ensures HasHighCharges(charges) == Checker.HasHighCharges(ChargeCheck.ChargeCheckOutcome(charges))
  {
  }

  /** `_is_porous`: the stored answer, or the porosity verdict, which is stored even when
      it is None, so an unknown answer is never retried. */
  function IsPorous(c: LegacyChecker, verdict: Option<bool>): (r: (LegacyChecker, Option<bool>))
    ensures r.0 == c.(porous := Some(r.1))
    ensures c.porous.Some? ==> r.1 == c.porous.value
    ensures c.porous.None? ==> r.1 == verdict
  {
    var v := if c.porous.Some? then c.porous.value else verdict;
    (c.(porous := Some(v)), v)
  }

  /** Once the verdict was unknown, a later run that would succeed is not consulted. */
  lemma UnknownPorosityIsKept(c: LegacyChecker, later: Option<bool>)
    requires c.porous.None?
    ensures IsPorous(IsPorous(c, None).0, later).1 == None
  {
  }

  // ---------------------------------------------------------------------------------
  // `_has_low_metal_coordination`

  /** Walks the metal indices; a metal expected to keep many neighbours but with at most
      four is asked `is_site_open` (recording open sites), and the first truthy answer
      ends the walk. */
  function LowMetalCoordination(t: PeriodicTable, s: Structure, m: Measurements, open: set<nat>, sites: seq<nat>): (r: (set<nat>, bool))
    ensures open <= r.0
    ensures OpenSound(Legacy, s, m, open) ==>
              && OpenSound(Legacy, s, m, r.0)
              && (r.1 <==> exists i :: i in sites && CheckMetalCoordination(t, SpeciesAt(s, i), Cn(s, i))
                                        && ReportsOpen(Legacy, s, m, i))
    decreases |sites|
  {
    if |sites| == 0 then (open, false)
    else
      assert forall i :: i in sites <==> i == sites[0] || i in sites[1..];
      if CheckMetalCoordination(t, SpeciesAt(s, sites[0]), Cn(s, sites[0])) then
        var step := IsSiteOpen(Legacy, s, m, open, sites[0]).value;
        if Truthy(step.1) then (step.0, true)
        else LowMetalCoordination(t, s, m, step.0, sites[1..])
      else LowMetalCoordination(t, s, m, open, sites[1..])
  }

  /** A lanthanoid, actinoid, Mo, Cr or Hf with at most three connected sites is always
      reported, and nothing is reported unless some listed metal has at most four. */
  lemma LowMetalCoordinationBounds(t: PeriodicTable, s: Structure, m: Measurements, open: set<nat>, sites: seq<nat>)
    requires OpenSound(Legacy, s, m, open)
    ensures (exists i :: i in sites && ExpectsManyNeighbors(t, SpeciesAt(s, i)) && Cn(s, i) <= 3) ==>
              LowMetalCoordination(t, s, m, open, sites).1
    ensures LowMetalCoordination(t, s, m, open, sites).1 ==> exists i :: i in sites && Cn(s, i) <= 4
  {
    if exists i :: i in sites && ExpectsManyNeighbors(t, SpeciesAt(s, i)) && Cn(s, i) <= 3 {
      var i :| i in sites && ExpectsManyNeighbors(t, SpeciesAt(s, i)) && Cn(s, i) <= 3;
      assert LowCn(Legacy, Cn(s, i));
      assert ReportsOpen(Legacy, s, m, i);
    }
  }

  // ---------------------------------------------------------------------------------
  // `get_mof_descriptors`

  /** The fixed keys of the legacy descriptor mapping, in order. */
  const LegacyDescriptorKeys: seq<string> := [
    "name", "graph_hash", "formula", "path", "density", "has_oms", "has_carbon",
    "has_hydrogen", "has_atomic_overlaps", "has_overcoordinated_c", "has_overcoordinated_n",
    "has_overcoordinated_h", "has_undercoordinated_c", "has_undercoordinated_n", "has_metal",
    "has_lone_atom", "has_lone_molecule", "has_high_charges", "has_undercoordinated_metal",
    "is_porous"]

  /** The checker describes the structure it was built from: the same species, and the
      index lists the constructor takes from them. */
  predicate Describes(t: PeriodicTable, s: Structure, c: LegacyChecker) {
    c.species == s.species && c.lists == ListsOf(t, s.species)
  }

  /** The memoised properties in the order the descriptor tuple asks for them. */
  const DescriptorMemoOrder: seq<Memoised> := [OvervalentC, OvervalentN, OvervalentH, UndercoordinatedC, UndercoordinatedN]

  /** The getters for `keys`, asked one after the other on the checker each one leaves. */
  function Properties(t: PeriodicTable, s: Structure, m: Measurements, c: LegacyChecker, keys: seq<Memoised>): (r: (LegacyChecker, seq<bool>))
    requires WellFormed(s)
    ensures |r.1| == |keys|
    ensures r.0 == c.(memo := r.0.memo)
    ensures forall key :: key in r.0.memo <==> key in c.memo || key in keys
    ensures forall key :: key in c.memo ==> r.0.memo[key] == c.memo[key]
    ensures MemoSound(t, s, m, c) ==>
              MemoSound(t, s, m, r.0) && forall k :: 0 <= k < |keys| ==> (r.1[k] <==> Holds(t, s, m, c.lists, keys[k]))
    decreases |keys|
  {
    if |keys| == 0 then (c, [])
    else
      var (c1, v) := Property(t, s, m, c, keys[0]);
      var (c2, vs) := Properties(t, s, m, c1, keys[1..]);
      assert forall key :: key in keys <==> key == keys[0] || key in keys[1..];
      (c2, [v] + vs)
  }

  /** The constructor's checker describes the structure whose species it read. */
  lemma NewCheckerDescribes(t: PeriodicTable, sites: seq<Occupancy>, s: Structure)
    requires NewChecker(t, sites).Success?
    requires s.species == NewChecker(t, sites).value.species
    ensures Describes(t, s, NewChecker(t, sites).value)
  {
  }

  /** A checker built from the structure has carbon (hydrogen) in its lists exactly when
      the structure has a carbon (hydrogen, deuterium or tritium) site. */
  lemma DescribedPresence(t: PeriodicTable, s: Structure, c: LegacyChecker)
    ensures Describes(t, s, c) ==>
              && (|c.lists.carbon| > 0 <==> exists i :: 0 <= i < Size(s) && s.species[i] == "C")
              && (|c.lists.hydrogen| > 0 <==> exists i :: 0 <= i < Size(s) && HydrogenLike(s.species[i]))
  {
    if Describes(t, s, c) {
      if |c.lists.carbon| > 0 { assert c.lists.carbon[0] in c.lists.carbon; }
      if |c.lists.hydrogen| > 0 { assert c.lists.hydrogen[0] in c.lists.hydrogen; }
      if exists i :: 0 <= i < Size(s) && s.species[i] == "C" {
        var i :| 0 <= i < Size(s) && s.species[i] == "C";
        assert i in c.lists.carbon;
      }
      if exists i :: 0 <= i < Size(s) && HydrogenLike(s.species[i]) {
        var i :| 0 <= i < Size(s) && HydrogenLike(s.species[i]);
        assert i in c.lists.hydrogen;
      }
    }
  }

  /** The descriptor tuple asks every memoised property. */
  lemma MemoOrderComplete()
    ensures forall key: Memoised :: key in DescriptorMemoOrder
  {
    forall key: Memoised ensures key in DescriptorMemoOrder {
      match key
      case OvervalentC => assert DescriptorMemoOrder[0] == key;
      case OvervalentN => assert DescriptorMemoOrder[1] == key;
      case OvervalentH => assert DescriptorMemoOrder[2] == key;
      case UndercoordinatedC => assert DescriptorMemoOrder[3] == key;
      case UndercoordinatedN => assert DescriptorMemoOrder[4] == key;
    }
  }

  /** A checker built from the structure lists its metals as the open-metal-site check does. */
  lemma DescribedMetals(t: PeriodicTable, s: Structure, c: LegacyChecker)
    ensures Describes(t, s, c) ==> c.lists.metal == MetalSites(Oms.Legacy, t, s)
  {
  }

  /** The last two state-changing entries: `has_undercoordinated_metal`, which records
      the open sites it finds, then `is_porous`, which stores its answer. */
  function LaterEntries(t: PeriodicTable, s: Structure, m: Measurements, c: LegacyChecker, porosity: Option<bool>): (r: (LegacyChecker, bool, Option<bool>))
    ensures r.0 == c.(oms := c.oms.(open := r.0.oms.open), porous := Some(r.2))
    ensures c.oms.open <= r.0.oms.open
    ensures r.2 == if c.porous.Some? then c.porous.value else porosity
    ensures OpenSound(Oms.Legacy, s, m, c.oms.open) ==>
              && OpenSound(Oms.Legacy, s, m, r.0.oms.open)
              && (r.1 <==> exists i :: i in c.lists.metal && CheckMetalCoordination(t, SpeciesAt(s, i), Cn(s, i))
                                      && ReportsOpen(Oms.Legacy, s, m, i))
  {
    var (open, low) := LowMetalCoordination(t, s, m, c.oms.open, c.lists.metal);
    var (c1, porous) := IsPorous(c.(oms := c.oms.(open := open)), porosity);
    (c1, low, porous)
  }

  /** `get_mof_descriptors`: the twenty entries of the tuple, evaluated in order. `has_oms`
      comes sixth and raises `NoMetal` on a structure without metal, which ends the call.
      The name, hash, formula, path, density, overlap and lone-molecule values come from
      `given`; the others are the facade's own properties, so the checker leaves with all
      five memoised answers, the porosity answer and the open sites that `has_oms` and
      `has_undercoordinated_metal` recorded. `charges` is what the charge package yields and
      `porosity` the zeo++ verdict. The entries under their keys are
      `Mapping(LegacyDescriptorKeys, d)`. */
  function MofDescriptors(t: PeriodicTable, s: Structure, m: Measurements, c: LegacyChecker,
                          charges: Option<seq<real>>, porosity: Option<bool>,
                          given: Given): (r: Result<(LegacyChecker, LegacyDescriptors), OmsError>)
    requires WellFormed(s)
    ensures r.Failure? <==> |MetalSites(Oms.Legacy, t, s)| == 0
    ensures r.Failure? ==> r.error == NoMetal
    ensures r.Success? ==> var e := r.value.1;
              && e.name == given.name && e.graphHash == given.graphHash && e.formula == given.formula
              && e.path == given.path && e.density == given.density
              && e.hasAtomicOverlaps == given.hasAtomicOverlaps && e.hasLoneMolecule == given.hasLoneMolecule
    ensures r.Success? ==> var d, e := r.value.0, r.value.1;
              && d.species == c.species && d.lists == c.lists && d.cnn == c.cnn
              && (forall key: Memoised :: key in d.memo)
              && (forall key :: key in c.memo ==> d.memo[key] == c.memo[key])
              && c.oms.open <= d.oms.open && d.oms.hasOms.Some? && e.hasOms == Checker.Flag(d.oms.hasOms.value)
  {
    match HasOms(Oms.Legacy, t, s, m, c.oms)
    case Failure(e) => Failure(e)
    case Success(answer) =>
      var (c1, vs) := Properties(t, s, m, c.(oms := answer.0), DescriptorMemoOrder);
      var (c2, low, porous) := LaterEntries(t, s, m, c1, porosity);
      MemoOrderComplete();
      Success((c2, LegacyDescriptors(
        given.name, given.graphHash, given.formula, given.path, given.density,
        Checker.Flag(answer.1), Checker.Flag(|c.lists.carbon| > 0), Checker.Flag(|c.lists.hydrogen| > 0),
        given.hasAtomicOverlaps, Checker.Flag(vs[0]), Checker.Flag(vs[1]), Checker.Flag(vs[2]),
        Checker.Flag(vs[3]), Checker.Flag(vs[4]), Checker.Flag(|c.lists.metal| > 0),
        Checker.Flag(HasLoneAtom(s, m, true)), given.hasLoneMolecule, Checker.Tri(HasHighCharges(charges)),
        Checker.Flag(low), Checker.Tri(porous))))
  }

  /** The lone-atom, charge and porosity entries are the facade's own properties; the
      porosity answer is the one stored, or else the verdict, which is stored. */
  lemma MofDescriptorsFacadeEntries(t: PeriodicTable, s: Structure, m: Measurements, c: LegacyChecker,
                                    charges: Option<seq<real>>, porosity: Option<bool>, given: Given)
    requires WellFormed(s)
    ensures var r := MofDescriptors(t, s, m, c, charges, porosity, given);
            r.Success? ==> var d, e := r.value.0, r.value.1;
              && (e.hasLoneAtom == Checker.Flag(true) <==> exists i :: 0 <= i < Size(s) && Cn(s, i) == 0 && m.vdwShell(i) == 0)
              && e.hasHighCharges == Checker.Tri(HasHighCharges(charges))
              && e.isPorous == Checker.Tri(if c.porous.Some? then c.porous.value else porosity)
              && d.porous == Some(e.isPorous.tri)
  {
  }

  /** For a checker built from the structure, the metal entry is True whenever the call
      returns, and the carbon and hydrogen entries say whether such a site exists. */
  lemma MofDescriptorsPresence(t: PeriodicTable, s: Structure, m: Measurements, c: LegacyChecker,
                               charges: Option<seq<real>>, porosity: Option<bool>, given: Given)
    requires WellFormed(s)
    requires Describes(t, s, c)
    ensures var r := MofDescriptors(t, s, m, c, charges, porosity, given);
            r.Success? ==> var e := r.value.1;
              && e.hasMetal == Checker.Flag(true)
              && (e.hasCarbon == Checker.Flag(true) <==> exists i :: 0 <= i < Size(s) && s.species[i] == "C")
              && (e.hasHydrogen == Checker.Flag(true) <==> exists i :: 0 <= i < Size(s) && HydrogenLike(s.species[i]))
  {
    DescribedMetals(t, s, c);
    DescribedPresence(t, s, c);
  }

  /** With sound memos the five memoised entries are the definitions' answers. */
  lemma MofDescriptorsMemoEntries(t: PeriodicTable, s: Structure, m: Measurements, c: LegacyChecker,
                                  charges: Option<seq<real>>, porosity: Option<bool>, given: Given)
    requires WellFormed(s)
    requires MemoSound(t, s, m, c)
    ensures var r := MofDescriptors(t, s, m, c, charges, porosity, given);
            r.Success? ==> var e := r.value.1;
              && e.overcoordinatedC == Checker.Flag(Holds(t, s, m, c.lists, OvervalentC))
              && e.overcoordinatedN == Checker.Flag(Holds(t, s, m, c.lists, OvervalentN))
              && e.overcoordinatedH == Checker.Flag(Holds(t, s, m, c.lists, OvervalentH))
              && e.undercoordinatedC == Checker.Flag(Holds(t, s, m, c.lists, UndercoordinatedC))
              && e.undercoordinatedN == Checker.Flag(Holds(t, s, m, c.lists, UndercoordinatedN))
  {
    var h := HasOms(Oms.Legacy, t, s, m, c.oms);
    if h.Success? {
      var c0 := c.(oms := h.value.0);
      assert MemoSound(t, s, m, c0);
      var vs := Properties(t, s, m, c0, DescriptorMemoOrder).1;
      var e := MofDescriptors(t, s, m, c, charges, porosity, given).value.1;
      assert e.overcoordinatedC == Checker.Flag(vs[0]) && e.overcoordinatedN == Checker.Flag(vs[1]);
      assert e.overcoordinatedH == Checker.Flag(vs[2]) && e.undercoordinatedC == Checker.Flag(vs[3]);
      assert e.undercoordinatedN == Checker.Flag(vs[4]);
    }
  }

  /** With sound memos the `has_oms` and `has_undercoordinated_metal` entries are the
      open-metal-site answers. */
  lemma MofDescriptorsOmsEntries(t: PeriodicTable, s: Structure, m: Measurements, c: LegacyChecker,
                                 charges: Option<seq<real>>, porosity: Option<bool>, given: Given)
    requires WellFormed(s)
    requires Oms.MemoSound(Oms.Legacy, t, s, m, c.oms)
    ensures var r := MofDescriptors(t, s, m, c, charges, porosity, given);
            r.Success? ==> var e := r.value.1;
              && (e.hasOms == Checker.Flag(true) <==> exists i :: i in MetalSites(Oms.Legacy, t, s) && ReportsOpen(Oms.Legacy, s, m, i))
              && (e.undercoordinatedMetal == Checker.Flag(true) <==>
                    exists i :: i in c.lists.metal && CheckMetalCoordination(t, SpeciesAt(s, i), Cn(s, i))
                                && ReportsOpen(Oms.Legacy, s, m, i))
  {
    var h := HasOms(Oms.Legacy, t, s, m, c.oms);
    if h.Success? {
      var c1 := Properties(t, s, m, c.(oms := h.value.0), DescriptorMemoOrder).0;
      assert OpenSound(Oms.Legacy, s, m, c1.oms.open) && c1.lists == c.lists;
      var low := LaterEntries(t, s, m, c1, porosity).1;
      assert MofDescriptors(t, s, m, c, charges, porosity, given).value.1.undercoordinatedMetal == Checker.Flag(low);
    }
  }

  /** Sound memos stay sound: every answer the call stores is the definitions' answer. */
  lemma MofDescriptorsKeepsMemosSound(t: PeriodicTable, s: Structure, m: Measurements, c: LegacyChecker,
                                      charges: Option<seq<real>>, porosity: Option<bool>, given: Given)
    requires WellFormed(s)
    requires MemoSound(t, s, m, c) && Oms.MemoSound(Oms.Legacy, t, s, m, c.oms)
    ensures var r := MofDescriptors(t, s, m, c, charges, porosity, given);
            r.Success? ==> MemoSound(t, s, m, r.value.0) && Oms.MemoSound(Oms.Legacy, t, s, m, r.value.0.oms)
  {
    var h := HasOms(Oms.Legacy, t, s, m, c.oms);
    if h.Success? {
      var c0 := c.(oms := h.value.0);
      assert MemoSound(t, s, m, c0) && Oms.MemoSound(Oms.Legacy, t, s, m, c0.oms);
      var c1 := Properties(t, s, m, c0, DescriptorMemoOrder).0;
      assert MemoSound(t, s, m, c1) && c1.oms == c0.oms && c1.lists == c.lists;
      var c2 := LaterEntries(t, s, m, c1, porosity).0;
      assert MemoSound(t, s, m, c2) && Oms.MemoSound(Oms.Legacy, t, s, m, c2.oms);
    }
  }

  /** The fixed keys are twenty distinct names. */
  lemma LegacyDescriptorKeysDistinct()
    ensures |LegacyDescriptorKeys| == 20 && NoDuplicates(LegacyDescriptorKeys)
  {
    forall i, j | 0 <= i < j < |LegacyDescriptorKeys| ensures LegacyDescriptorKeys[i] != LegacyDescriptorKeys[j] { }
  }

  /** The legacy keys the current descriptor catalogue no longer offers. */
  const RetiredDescriptorKeys: set<string> := {"has_oms", "has_lone_atom", "has_undercoordinated_metal"}

  /** Every fixed key but the retired ones is still offered by the current catalogue. */
  lemma LegacyKeysStillOffered()
    ensures forall k :: 0 <= k < |LegacyDescriptorKeys| && LegacyDescriptorKeys[k] !in RetiredDescriptorKeys ==>
              LegacyDescriptorKeys[k] in Checker.Descriptors
  {
    forall k | 0 <= k < |LegacyDescriptorKeys| && LegacyDescriptorKeys[k] !in RetiredDescriptorKeys
      ensures LegacyDescriptorKeys[k] in Checker.Descriptors
    {
      // where each kept key sits in the current catalogue
      var d := Checker.Descriptors;
      if k < 2 { assert LegacyDescriptorKeys[k] == d[k]; }
      else if 2 <= k < 5 { assert LegacyDescriptorKeys[k] == d[k + 4]; }
      else if 6 <= k < 14 { assert LegacyDescriptorKeys[k] == d[k + 3]; }
      else if k == 14 { assert LegacyDescriptorKeys[k] == d[18]; }
      else if 16 <= k < 18 { assert LegacyDescriptorKeys[k] == d[k + 3]; }
      else if k == 19 { assert LegacyDescriptorKeys[k] == d[21]; }
    }
  }

  /** The retired keys are fixed legacy keys that the current catalogue does not offer. */
  lemma RetiredKeysDropped()
    ensures forall x :: x in RetiredDescriptorKeys ==> x in LegacyDescriptorKeys && x !in Checker.Descriptors
  {
    forall x, j | x in RetiredDescriptorKeys && 0 <= j < |Checker.Descriptors|
      ensures Checker.Descriptors[j] != x { }
    assert LegacyDescriptorKeys[5] == "has_oms";
    assert LegacyDescriptorKeys[15] == "has_lone_atom";
    assert LegacyDescriptorKeys[18] == "has_undercoordinated_metal";
  }

}
