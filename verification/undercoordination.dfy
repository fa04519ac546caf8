/** The missing-atom checks: carbons and nitrogens that look as if they lost a hydrogen,
    with candidate positions for the missing atoms. */
module Undercoordination {
  import opened Wrappers
  import opened Seqs
  import opened Crystal
  import opened Indices
  import opened CheckBase
  import opened Heuristics

  /** A candidate-position entry: a list of positions (CN-1 carbon) or a single one. */
  datatype Candidate = Several(points: seq<Vec3>) | Single(point: Vec3)

  /** Tolerance of the carbon angle test, in degrees. */
  const CarbonTolerance: real := 10.0
  /** Tolerance of the current nitrogen rules, in degrees. */
  const NitrogenTolerance: real := 25.0
  /** Tolerance of the legacy nitrogen rules, in degrees. */
  const LegacyNitrogenTolerance: real := 10.0

  /** A carbon with two neighbours whose bond angle is not nearly straight. */
  predicate BentCarbon(s: Structure, m: Measurements, i: nat) {
    Cn(s, i) == 2
    && Abs(180.0 - MaximumAngle(m.angle(i, ConnectedSites(s, i)[0].index, ConnectedSites(s, i)[1].index))) > CarbonTolerance
  }

  /** A carbon the check flags: one neighbour, or two at a bent angle. */
  predicate UndercoordinatedCarbonSite(s: Structure, m: Measurements, i: nat) {
    Cn(s, i) == 1 || BentCarbon(s, m, i)
  }

  /** Flags and entries for a list of carbon candidates, in order. */
  function CarbonScan(s: Structure, m: Measurements, cands: seq<nat>): (r: (seq<nat>, seq<Candidate>))
    ensures |r.0| == |r.1|
    ensures r.0 == Keep(cands, (i: nat) => UndercoordinatedCarbonSite(s, m, i))
    ensures forall k :: 0 <= k < |r.0| ==>
              (Cn(s, r.0[k]) == 1 ==> r.1[k].Several? && |r.1[k].points| == 3)
              && (Cn(s, r.0[k]) == 2 ==> r.1[k].Single?)
  {
    if |cands| == 0 then ([], [])
    else
      var i := cands[0];
      var (flags, entries) := CarbonScan(s, m, cands[1..]);
      if Cn(s, i) == 1 then
        ([i] + flags, [Several(AddSp3HydrogensOnCn1(m, i, ConnectedSites(s, i)).value)] + entries)
      else if BentCarbon(s, m, i) then
        ([i] + flags, [Single(AddSp2Hydrogen(m, i, ConnectedSites(s, i)).value)] + entries)
      else (flags, entries)
  }

  /** `UnderCoordinatedCarbonCheck`: every carbon with one neighbour, and every carbon with
      two whose angle is more than 10 degrees from straight, is flagged, with three sp3
      positions or one sp2 position respectively. */
  function UnderCoordinatedCarbon(t: PeriodicTable, s: Structure, m: Measurements): (r: MissingOutcome<Candidate>)
    ensures r.ok <==> |r.indices| == 0
    ensures |r.indices| == |r.positions|
    ensures forall i: nat :: i in r.indices <==> i < Size(s) && s.species[i] == "C" && (Cn(s, i) == 1 || BentCarbon(s, m, i))
    ensures StrictlyIncreasing(r.indices)
    ensures forall k :: 0 <= k < |r.indices| ==>
              (Cn(s, r.indices[k]) == 1 ==> r.positions[k].Several? && |r.positions[k].points| == 3)
              && (Cn(s, r.indices[k]) == 2 ==> r.positions[k].Single?)
  {
    var (flags, entries) := CarbonScan(s, m, IndicesOf(t, Carbon, s.species));
    MissingOutcome(|flags| == 0, flags, entries)
  }

  /** Carbons with no neighbours or with three or more are never flagged. */
  lemma CarbonCoordinationRange(t: PeriodicTable, s: Structure, m: Measurements, i: nat)
    requires Cn(s, i) == 0 || Cn(s, i) >= 3
    ensures i !in UnderCoordinatedCarbon(t, s, m).indices
  {
  }

  // ---------------------------------------------------------------------------------
  // Nitrogen

  /** A nitrogen with one neighbour whose neighbour has more than two connected sites and
      is not a metal in pymatgen's sense. */
  predicate TerminalNitrogen(t: PeriodicTable, s: Structure, i: nat) {
    Cn(s, i) == 1
    && Cn(s, ConnectedSites(s, i)[0].index) > 2
    && SpeciesAt(s, ConnectedSites(s, i)[0].index) !in t.pymatgenMetals
  }

  /** The current nitrogen rule, by coordination number. */
  predicate UndercoordinatedNitrogenSite(t: PeriodicTable, s: Structure, m: Measurements, i: nat)
    requires WellFormed(s) && i < Size(s)
  {
    if Cn(s, i) == 1 then TerminalNitrogen(t, s, i)
    else if Cn(s, i) == 2 then UnderboundNitrogenCn2(s, m, i, NitrogenTolerance)
    else if Cn(s, i) == 3 then UnderboundNitrogenCn3(t, s, m, i, NitrogenTolerance)
    else false
  }

  /** The candidate position for a flagged nitrogen: sp, sp2 or sp3 placement by CN. */
  function NitrogenPosition(m: Measurements, s: Structure, i: nat): Vec3
    requires 1 <= Cn(s, i) <= 3
  {
    if Cn(s, i) == 1 then AddSpHydrogen(m, i, ConnectedSites(s, i)).value
    else if Cn(s, i) == 2 then AddSp2Hydrogen(m, i, ConnectedSites(s, i)).value
    else AddSp3Hydrogen(m, i, ConnectedSites(s, i)).value
  }

  function NitrogenScan(t: PeriodicTable, s: Structure, m: Measurements, cands: seq<nat>): (r: (seq<nat>, seq<Vec3>))
    requires WellFormed(s) && forall k :: 0 <= k < |cands| ==> cands[k] < Size(s)
    ensures |r.0| == |r.1|
    ensures forall i: nat :: i in r.0 <==> i in cands && UndercoordinatedNitrogenSite(t, s, m, i)
    ensures StrictlyIncreasing(cands) ==> StrictlyIncreasing(r.0)
  {
    if |cands| == 0 then ([], [])
    else
      var i := cands[0];
      var (flags, entries) := NitrogenScan(t, s, m, cands[1..]);
      assert StrictlyIncreasing(cands) ==> StrictlyIncreasing(cands[1..]) && forall k :: 0 <= k < |flags| ==> i < flags[k] by {
        if StrictlyIncreasing(cands) {
          forall k | 0 <= k < |flags| ensures i < flags[k] {
            assert flags[k] in cands[1..];
          }
        }
      }
      if UndercoordinatedNitrogenSite(t, s, m, i) then ([i] + flags, [NitrogenPosition(m, s, i)] + entries)
      else (flags, entries)
  }

  /** `UnderCoordinatedNitrogenCheck`: a nitrogen with one neighbour is flagged when that
      neighbour has CN above 2 and is not a metal; with two or three neighbours the CN-2 or
      CN-3 rule decides at tolerance 25; any other CN is never flagged. Each flagged
      nitrogen gets exactly one candidate position. */
  function UnderCoordinatedNitrogen(t: PeriodicTable, s: Structure, m: Measurements): (r: MissingOutcome<Vec3>)
    requires WellFormed(s)
    ensures r.ok <==> |r.indices| == 0
    ensures |r.indices| == |r.positions|
    ensures forall i: nat :: i in r.indices <==>
              (i < Size(s) && s.species[i] == "N"
               && ((Cn(s, i) == 1 && TerminalNitrogen(t, s, i))
                   || (Cn(s, i) == 2 && UnderboundNitrogenCn2(s, m, i, NitrogenTolerance))
                   || (Cn(s, i) == 3 && UnderboundNitrogenCn3(t, s, m, i, NitrogenTolerance))))
    ensures StrictlyIncreasing(r.indices)
  {
    var (flags, entries) := NitrogenScan(t, s, m, IndicesOf(t, Nitrogen, s.species));
    MissingOutcome(|flags| == 0, flags, entries)
  }

  /** The legacy nitrogen rule: the legacy CN-2 and CN-3 heuristics at tolerance 10. */
  predicate LegacyUndercoordinatedNitrogenSite(t: PeriodicTable, s: Structure, m: Measurements, i: nat)
    requires WellFormed(s) && i < Size(s)
  {
    if Cn(s, i) == 1 then TerminalNitrogen(t, s, i)
    else if Cn(s, i) == 2 then LegacyUnderboundNitrogenCn2(s, m, i, LegacyNitrogenTolerance)
    else if Cn(s, i) == 3 then LegacyUnderboundNitrogenCn3(t, s, m, i, LegacyNitrogenTolerance)
    else false
  }

  /** The legacy `UnderCoordinatedNitrogenCheck`: indices only, no positions. */
  function LegacyUnderCoordinatedNitrogen(t: PeriodicTable, s: Structure, m: Measurements): (r: IndexOutcome)
    requires WellFormed(s)
    ensures r.ok <==> |r.indices| == 0
    ensures forall i: nat :: i in r.indices <==> i < Size(s) && s.species[i] == "N" && LegacyUndercoordinatedNitrogenSite(t, s, m, i)
    ensures StrictlyIncreasing(r.indices)
  {
    Outcome(Keep(IndicesOf(t, Nitrogen, s.species), (i: nat) => i < Size(s) && LegacyUndercoordinatedNitrogenSite(t, s, m, i)))
  }
}
