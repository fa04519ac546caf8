/** The open-metal-site classifier. A metal site with few connected sites counts as open,
    one with very many as unknown, and one in between is compared with ideal coordination
    motifs through weighted local order parameters. Three copies of the classifier exist
    and differ in their tables and error handling: the current `MOFOMS`, the legacy
    `MOFOMS` (whose logic the legacy `MOFChecker` repeats) and the stand-alone
    `OMSDetector`. */
module Oms {
  import opened Wrappers
  import opened Seqs
  import opened Crystal
  import opened Indices

  /** Which copy of the classifier is meant: `Legacy` is the legacy `MOFChecker` with the
      table of `mofchecker/definitions.py`. */
  datatype Revision = Current | Legacy | Detector

  /** The errors the classifier raises: `NoMetal`, `LowCoordinationNumber`,
      `HighCoordinationNumber`, and the `TypeError` the detector hits when it zips the
      missing motif names with the missing order parameters. */
  datatype OmsError = NoMetal | LowCoordination | HighCoordination | ZipOfNone

  /** One row of `OP_DEF`: the motif names, their weights (absent in the detector's
      table) and the positions of the motifs that count as open (`None` for CN 8). */
  datatype MotifTable = MotifTable(names: seq<string>, weights: Option<seq<real>>, openMask: Option<seq<nat>>)

  /** The open mask names distinct motifs of the row. */
  predicate MaskInRange(mask: seq<nat>, n: nat) {
    (forall j :: 0 <= j < |mask| ==> mask[j] < n) && NoDuplicates(mask)
  }

  /** A row that `_check_if_open` can evaluate: a weight per motif and a valid mask. */
  predicate RowWellFormed(d: MotifTable) {
    |d.names| > 0
    && NoDuplicates(d.names)
    && (d.weights.Some? ==> |d.weights.value| == |d.names|)
    && (d.openMask.Some? ==> MaskInRange(d.openMask.value, |d.names|))
  }

  function Sum(xs: seq<real>): real {
    if |xs| == 0 then 0.0 else xs[0] + Sum(xs[1..])
  }

  /** The motif names of `OP_DEF[cn]`; the detector's CN-6 row has a third motif. */
  function MotifNames(rev: Revision, cn: nat): (r: seq<string>)
    requires 4 <= cn <= 8
    ensures |r| > 0 && NoDuplicates(r)
  {
    if cn == 4 then ["sq_plan", "sq", "see_saw_rect", "tet", "tri_pyr"]
    else if cn == 5 then ["pent_plan", "sq_pyr", "tri_bipyr"]
    else if cn == 6 then (if rev == Detector then ["hex_plan_max", "pent_pyr", "oct"] else ["pent_pyr", "oct"])
    else if cn == 7 then ["hex_pyr", "pent_bipyr"]
    else ["hex_bipyr"]
  }

  /** The open mask of `OP_DEF[cn]`: `None` for CN 8. */
  function OpenMask(rev: Revision, cn: nat): (r: Option<seq<nat>>)
    requires 4 <= cn <= 8
    ensures r.None? <==> cn == 8
    ensures r.Some? ==> MaskInRange(r.value, |MotifNames(rev, cn)|)
  {
    if cn == 4 then Some([0, 1, 2, 4])
    else if cn == 5 then Some([0, 1])
    else if cn == 6 then (if rev == Detector then Some([0, 1]) else Some([0]))
    else if cn == 7 then Some([0])
    else None
  }

  /** The weights of `OP_DEF[cn]` in the current package. */
  function CurrentWeights(cn: nat): (r: seq<real>)
    requires 4 <= cn <= 8
    ensures |r| == |MotifNames(Current, cn)|
  {
    if cn == 4 then [0.2, 0.1, 0.1, 0.5, 0.5]
    else if cn == 5 then [1.0, 0.5, 0.5]
    else if cn == 6 then [0.3, 0.7]
    else if cn == 7 then [0.7, 0.3]
    else [1.0]
  }

  /** The weights of `OP_DEF[cn]` in the legacy package. */
  function LegacyWeights(cn: nat): (r: seq<real>)
    requires 4 <= cn <= 8
    ensures |r| == |MotifNames(Legacy, cn)|
  {
    if cn == 4 then [0.15, 0.15, 0.1, 0.5, 0.1]
    else if cn == 5 then [1.0, 1.0, 0.2]
    else if cn == 6 then [0.3, 0.7]
    else if cn == 7 then [0.7, 0.3]
    else [1.0]
  }

  /** `OP_DEF[cn]` of the given revision, `None` where the dictionary has no key. */
  function OpDef(rev: Revision, cn: nat): (r: Option<MotifTable>)
    ensures r.Some? <==> 4 <= cn <= 8
    ensures r.Some? ==> RowWellFormed(r.value)
    ensures r.Some? ==> (r.value.weights.None? <==> rev == Detector)
    ensures r.Some? ==> (r.value.openMask.None? <==> cn == 8)
  {
    if cn < 4 || cn > 8 then None
    else
      var weights: Option<seq<real>> :=
        match rev
        case Current => Some(CurrentWeights(cn))
        case Legacy => Some(LegacyWeights(cn))
        case Detector => None;
      Some(MotifTable(MotifNames(rev, cn), weights, OpenMask(rev, cn)))
  }

  /** The weights are not normalised, and the two weighted tables disagree: CN-4 weights
      sum to 1.4 now and to 1.0 in the legacy table, CN-5 weights to 2.0 and 2.2. */
  lemma WeightTotals()
    ensures Sum(OpDef(Current, 4).value.weights.value) == 1.4
    ensures Sum(OpDef(Current, 5).value.weights.value) == 2.0
    ensures Sum(OpDef(Legacy, 4).value.weights.value) == 1.0
    ensures Sum(OpDef(Legacy, 5).value.weights.value) == 2.2
  {
  }

  /** The detector's CN-6 row lists `hex_plan_max` first and counts two motifs as open. */
  lemma DetectorSixRow()
    ensures OpDef(Detector, 6).value.names == ["hex_plan_max", "pent_pyr", "oct"]
    ensures OpDef(Detector, 6).value.openMask == Some([0, 1])
  {
  }

  // ---------------------------------------------------------------------------------
  // `_check_if_open`

  /** Threshold on the open share of the weighted order parameters. */
  const OpenThreshold: real := 0.5

  /** Sum over all motifs of order parameter times weight (`(lsop * weights).sum()`). */
  function WeightedSum(v: seq<real>, w: seq<real>): real
    requires |v| == |w|
  {
    if |v| == 0 then 0.0 else v[0] * w[0] + WeightedSum(v[1..], w[1..])
  }

  /** The same products summed over the masked positions (`(lsop * weights)[is_open].sum()`). */
  function MaskedSum(v: seq<real>, w: seq<real>, mask: seq<nat>): real
    requires |v| == |w|
    requires forall j :: 0 <= j < |mask| ==> mask[j] < |v|
  {
    if |mask| == 0 then 0.0 else v[mask[0]] * w[mask[0]] + MaskedSum(v, w, mask[1..])
  }

  /** numpy can multiply and index: weights of the right length and a mask inside them. */
  predicate Weighable(v: seq<real>, mask: seq<nat>, weights: Option<seq<real>>) {
    weights.Some? && |weights.value| == |v| && forall j :: 0 <= j < |mask| ==> mask[j] < |v|
  }

  lemma RatioAboveHalf(open: real, total: real)
    requires total != 0.0
    ensures total > 0.0 ==> (open / total > OpenThreshold <==> open > total - open)
    ensures total < 0.0 ==> (open / total > OpenThreshold <==> open < total - open)
  {
    var q := open / total;
    assert open == q * total;
    if total > 0.0 {
      if q > OpenThreshold {
        assert q * total > OpenThreshold * total;
      } else {
        assert q * total <= OpenThreshold * total;
      }
    } else {
      if q > OpenThreshold {
        assert q * total < OpenThreshold * total;
      } else {
        assert q * total >= OpenThreshold * total;
      }
    }
  }

  /** `_check_if_open`: no order parameters give `None`, no open mask gives `False`, and
      otherwise the site is open when the masked share of the weighted sum exceeds one half.
      A zero total follows numpy's division: a positive open sum gives infinity (open), a
      zero or negative one gives NaN or minus infinity (closed). */
  function CheckIfOpen(lsop: Option<seq<real>>, openMask: Option<seq<nat>>, weights: Option<seq<real>>): (r: Option<bool>)
    requires lsop.Some? && openMask.Some? ==> Weighable(lsop.value, openMask.value, weights)
    ensures r.None? <==> lsop.None?
    ensures lsop.Some? && openMask.None? ==> r == Some(false)
    ensures lsop.Some? && openMask.Some? ==>
              var open := MaskedSum(lsop.value, weights.value, openMask.value);
              var closed := WeightedSum(lsop.value, weights.value) - open;
              && (open + closed > 0.0 ==> (r == Some(true) <==> open > closed))
              && (open + closed < 0.0 ==> (r == Some(true) <==> open < closed))
              && (open + closed == 0.0 ==> (r == Some(true) <==> open > 0.0))
  {
    if lsop.None? then None
    else if openMask.None? then Some(false)
    else
      var open := MaskedSum(lsop.value, weights.value, openMask.value);
      var total := WeightedSum(lsop.value, weights.value);
      if total == 0.0 then Some(open > 0.0)
      else
        RatioAboveHalf(open, total);
        Some(open / total > OpenThreshold)
  }

  /** `u` is `v` with every element multiplied by `c`. */
  predicate Scaled(c: real, u: seq<real>, v: seq<real>) {
    |u| == |v| && forall k :: 0 <= k < |v| ==> u[k] == c * v[k]
  }

  lemma {:induction false} WeightedSumScales(c: real, u: seq<real>, v: seq<real>, w: seq<real>)
    requires Scaled(c, u, v) && |v| == |w|
    ensures WeightedSum(u, w) == c * WeightedSum(v, w)
    decreases |v|
  {
    if |v| > 0 {
      WeightedSumScales(c, u[1..], v[1..], w[1..]);
      assert u[0] * w[0] == c * (v[0] * w[0]);
    }
  }

  lemma {:induction false} MaskedSumScales(c: real, u: seq<real>, v: seq<real>, w: seq<real>, mask: seq<nat>)
    requires Scaled(c, u, v) && |v| == |w|
    requires forall j :: 0 <= j < |mask| ==> mask[j] < |v|
    ensures MaskedSum(u, w, mask) == c * MaskedSum(v, w, mask)
    decreases |mask|
  {
    if |mask| > 0 {
      MaskedSumScales(c, u, v, w, mask[1..]);
      assert u[mask[0]] * w[mask[0]] == c * (v[mask[0]] * w[mask[0]]);
    }
  }

  /** The verdict depends only on the proportions of the order parameters: scaling all of
      them by the same positive factor never changes whether a site is open. */
  lemma OpenVerdictScaleInvariant(c: real, u: seq<real>, v: seq<real>, mask: seq<nat>, w: seq<real>)
    requires c > 0.0
    requires Scaled(c, u, v)
    requires Weighable(v, mask, Some(w))
    ensures CheckIfOpen(Some(u), Some(mask), Some(w)) == CheckIfOpen(Some(v), Some(mask), Some(w))
  {
    WeightedSumScales(c, u, v, w);
    MaskedSumScales(c, u, v, w, mask);
    var open := MaskedSum(v, w, mask);
    var total := WeightedSum(v, w);
    if total > 0.0 {
      assert c * total > 0.0;
      assert c * open > c * total - c * open <==> open > total - open;
    } else if total < 0.0 {
      assert c * total < 0.0;
      assert c * open < c * total - c * open <==> open < total - open;
    } else {
      assert c * total == 0.0;
      assert c * open > 0.0 <==> open > 0.0;
    }
  }

  // ---------------------------------------------------------------------------------
  // `_get_ops_for_site`

  /** The tuple `(cn, names, lsop, is_open, weights)`. */
  datatype SiteOps = SiteOps(cn: nat, names: Option<seq<string>>, lsop: Option<seq<real>>,
                             openMask: Option<seq<nat>>, weights: Option<seq<real>>)

  /** The values `_check_if_open` needs fit together. */
  predicate OpsConsistent(ops: SiteOps) {
    (ops.lsop.Some? ==> ops.names.Some? && |ops.lsop.value| == |ops.names.value|)
    && (ops.lsop.Some? && ops.openMask.Some? ==> Weighable(ops.lsop.value, ops.openMask.value, ops.weights))
  }

  /** `LocalStructOrderParams(names).get_order_parameters(structure, site)`. */
  function OrderParameters(m: Measurements, site: nat, names: seq<string>): (r: seq<real>)
    ensures |r| == |names|
  {
    seq(|names|, k requires 0 <= k < |names| => m.orderParameter(site, names[k]))
  }

  /** Which coordination numbers raise `LowCoordinationNumber`: at most 3 in the two
      `mofchecker` copies, below 3 in the detector. */
  predicate LowCn(rev: Revision, cn: nat) {
    if rev == Detector then cn < 3 else cn <= 3
  }

  /** `_get_ops_for_site`: the motif row and order parameters for the site's coordination
      number. A missing key (in the detector: always, since no row has weights) raises
      the low or high coordination error, or else yields a tuple without parameters. */
  function GetOpsForSite(rev: Revision, s: Structure, m: Measurements, site: nat): (r: Result<SiteOps, OmsError>)
    ensures r == Failure(LowCoordination) <==> LowCn(rev, Cn(s, site))
    ensures r == Failure(HighCoordination) <==> Cn(s, site) > 8
    ensures r.Failure? ==> r.error == LowCoordination || r.error == HighCoordination
    ensures r.Success? ==> r.value.cn == Cn(s, site) && OpsConsistent(r.value)
    ensures rev != Detector ==> (r.Success? <==> 4 <= Cn(s, site) <= 8)
    ensures rev != Detector && r.Success? ==>
              var d := OpDef(rev, Cn(s, site)).value;
              && r.value.names == Some(d.names)
              && r.value.openMask == d.openMask
              && r.value.weights == d.weights
              && r.value.lsop.Some?
              && (forall k :: 0 <= k < |d.names| ==> r.value.lsop.value[k] == m.orderParameter(site, d.names[k]))
    ensures rev == Detector && r.Success? ==> r.value.lsop.None? && 3 <= r.value.cn <= 8
  {
    var cn := Cn(s, site);
    var d := OpDef(rev, cn);
    if d.Some? && d.value.weights.Some? then
      Success(SiteOps(cn, Some(d.value.names), Some(OrderParameters(m, site, d.value.names)),
                      d.value.openMask, d.value.weights))
    else if LowCn(rev, cn) then Failure(LowCoordination)
    else if cn > 8 then Failure(HighCoordination)
    else Success(SiteOps(cn, None, None, None, None))
  }

  // ---------------------------------------------------------------------------------
  // `is_site_open`

  /** What `is_site_open` answers for a site not yet recorded as open: `True` for a low
      coordination number, `None` for a high one (the detector lets the error escape),
      and otherwise the verdict of `_check_if_open`. */
  function SiteOpen(rev: Revision, s: Structure, m: Measurements, site: nat): (r: Result<Option<bool>, OmsError>)
    ensures LowCn(rev, Cn(s, site)) ==> r == Success(Some(true))
    ensures Cn(s, site) > 8 ==> r == (if rev == Detector then Failure(HighCoordination) else Success(None))
    ensures rev != Detector ==> r.Success?
    ensures rev != Detector && Cn(s, site) == 8 ==> r == Success(Some(false))
    ensures rev != Detector && 4 <= Cn(s, site) <= 8 ==>
              var d := OpDef(rev, Cn(s, site)).value;
              r == Success(CheckIfOpen(Some(OrderParameters(m, site, d.names)), d.openMask, d.weights))
    ensures rev == Detector ==> (r == Success(Some(true)) <==> Cn(s, site) < 3)
    ensures rev == Detector && 3 <= Cn(s, site) <= 8 ==> r == Success(None)
  {
    match GetOpsForSite(rev, s, m, site)
    case Failure(e) =>
      if e == LowCoordination then Success(Some(true))
      else if rev == Detector then Failure(e)
      else Success(None)
    case Success(ops) =>
      if rev != Detector then
        assert ops.openMask == OpDef(rev, ops.cn).value.openMask;
        Success(CheckIfOpen(ops.lsop, ops.openMask, ops.weights))
      else Success(CheckIfOpen(ops.lsop, ops.openMask, ops.weights))
  }

  /** The site is classified open (the truthy answer). */
  predicate ReportsOpen(rev: Revision, s: Structure, m: Measurements, site: nat) {
    SiteOpen(rev, s, m, site) == Success(Some(true))
  }

  function OpenTest(rev: Revision, s: Structure, m: Measurements): nat -> bool {
    (i: nat) => ReportsOpen(rev, s, m, i)
  }

  /** Every recorded index was classified open. This holds of the empty set a checker
      starts from, and every operation below keeps it. */
  predicate OpenSound(rev: Revision, s: Structure, m: Measurements, open: set<nat>) {
    forall i :: i in open ==> ReportsOpen(rev, s, m, i)
  }

  /** `is_site_open` with its set of recorded open indices: a recorded index answers
      `True` at once; otherwise the site is classified and recorded if found open by the
      order parameters (a low coordination number answers `True` without recording). */
  function IsSiteOpen(rev: Revision, s: Structure, m: Measurements, open: set<nat>, site: nat): (r: Result<(set<nat>, Option<bool>), OmsError>)
    ensures site in open ==> r == Success((open, Some(true)))
    ensures r.Success? ==> open <= r.value.0 <= open + {site}
    ensures r.Success? && site in r.value.0 ==> r.value.1 == Some(true)
    ensures rev != Detector ==> r.Success?
    ensures r.Failure? ==> rev == Detector && r.error == HighCoordination
    ensures OpenSound(rev, s, m, open) ==>
              && (r.Success? <==> SiteOpen(rev, s, m, site).Success?)
              && (r.Success? ==> r.value.1 == SiteOpen(rev, s, m, site).value && OpenSound(rev, s, m, r.value.0))
  {
    if site in open then Success((open, Some(true)))
    else
      match GetOpsForSite(rev, s, m, site)
      case Failure(e) =>
        if e == LowCoordination then Success((open, Some(true)))
        else if rev == Detector then Failure(e)
        else Success((open, None))
      case Success(ops) =>
        var verdict := CheckIfOpen(ops.lsop, ops.openMask, ops.weights);
        Success((if Truthy(verdict) then open + {site} else open, verdict))
  }

  // ---------------------------------------------------------------------------------
  // `check_oms` and `_run_check`

  /** The metal indices each copy classifies: the package's `METALS` list in the two
      `mofchecker` copies, pymatgen's `is_metal` in the detector. */
  function MetalSites(rev: Revision, t: PeriodicTable, s: Structure): (r: seq<nat>)
    ensures forall i: nat :: i in r <==>
              i < Size(s) && (if rev == Detector then s.species[i] in t.pymatgenMetals else s.species[i] in t.metals)
    ensures StrictlyIncreasing(r)
  {
    if rev == Detector then Positions(s.species, (e: Element) => e in t.pymatgenMetals)
    else IndicesOf(t, Metal, s.species)
  }

  /** The loop of `check_oms`: visit the sites in order, keep the truthy ones. */
  function OpenSites(rev: Revision, s: Structure, m: Measurements, open: set<nat>, sites: seq<nat>): (r: (set<nat>, seq<nat>))
    requires rev != Detector
    ensures open <= r.0
    ensures OpenSound(rev, s, m, open) ==> OpenSound(rev, s, m, r.0) && r.1 == Keep(sites, OpenTest(rev, s, m))
    decreases |sites|
  {
    if |sites| == 0 then (open, [])
    else
      var step := IsSiteOpen(rev, s, m, open, sites[0]).value;
      var rest := OpenSites(rev, s, m, step.0, sites[1..]);
      (rest.0, if Truthy(step.1) then [sites[0]] + rest.1 else rest.1)
  }

  /** `check_oms`: `NoMetal` without metals, otherwise the metal indices classified open,
      in ascending order. Sites of unknown (high) coordination are never listed. */
  function CheckOms(rev: Revision, t: PeriodicTable, s: Structure, m: Measurements, open: set<nat>): (r: Result<(set<nat>, seq<nat>), OmsError>)
    requires rev != Detector
    ensures r.Failure? <==> |MetalSites(rev, t, s)| == 0
    ensures r.Failure? ==> r.error == NoMetal
    ensures r.Success? && OpenSound(rev, s, m, open) ==>
              && OpenSound(rev, s, m, r.value.0)
              && StrictlyIncreasing(r.value.1)
              && (forall i: nat :: i in r.value.1 <==>
                    i < Size(s) && s.species[i] in t.metals && ReportsOpen(rev, s, m, i))
              && (forall i: nat :: i in r.value.1 ==> Cn(s, i) <= 8)
  {
    var metals := MetalSites(rev, t, s);
    if |metals| == 0 then Failure(NoMetal)
    else Success(OpenSites(rev, s, m, open, metals))
  }

  /** `MOFOMS._run_check` on a fresh check: `(no open metal site, open metal indices)`. */
  function OmsOutcome(rev: Revision, t: PeriodicTable, s: Structure, m: Measurements): (r: Result<(bool, seq<nat>), OmsError>)
    requires rev != Detector
    ensures r.Failure? <==> |MetalSites(rev, t, s)| == 0
    ensures r.Success? ==>
              && (r.value.0 <==> forall i: nat :: i < Size(s) && s.species[i] in t.metals ==> !ReportsOpen(rev, s, m, i))
              && (forall i: nat :: i in r.value.1 <==> i < Size(s) && s.species[i] in t.metals && ReportsOpen(rev, s, m, i))
  {
    match CheckOms(rev, t, s, m, {})
    case Failure(e) => Failure(e)
    case Success(st) =>
      var indices := st.1;
      assert |indices| == 0 <==> forall i: nat :: i < Size(s) && s.species[i] in t.metals ==> !ReportsOpen(rev, s, m, i) by {
        if |indices| > 0 {
          assert indices[0] in indices;
        }
      }
      Success((|indices| == 0, indices))
  }

  // ---------------------------------------------------------------------------------
  // Metal descriptors

  /** The per-site dictionary `{"metal", "lsop", "open", "cn"}`; `metal` is the string
      form of the site's composition and `lsop` is the list of (motif name, order
      parameter) pairs in table order. */
  datatype SiteDescriptor = SiteDescriptor(metal: string, lsop: Option<seq<(string, real)>>,
                                           open: Option<bool>, cn: Option<nat>)

  /** `str(site.species)` of an ordered site: the composition formula of one atom of the
      element, written with its amount, as in "Cu1". */
  function CompositionString(e: Element): (r: string)
    ensures |r| == |e| + 1 && r[..|e|] == e && r[|e|] == '1'
  {
    e + "1"
  }

  /** The composition string determines the element. */
  lemma CompositionStringInjective(a: Element, b: Element)
    ensures CompositionString(a) == CompositionString(b) ==> a == b
  {
    if CompositionString(a) == CompositionString(b) {
      assert a == CompositionString(a)[..|a|];
    }
  }

  function Zip(names: seq<string>, values: seq<real>): (r: seq<(string, real)>)
    requires |names| == |values|
    ensures |r| == |names|
    ensures forall k :: 0 <= k < |r| ==> r[k] == (names[k], values[k])
  {
    seq(|names|, k requires 0 <= k < |names| => (names[k], values[k]))
  }

  /** `_get_metal_descriptors_for_site`. In the two `mofchecker` copies a low coordination
      number gives `open = True` with no CN or parameters, a high one `open = None`, and
      otherwise the order parameters by motif name, the verdict and the CN. The detector
      catches neither error and zips `None` for every other CN, so it never produces a
      descriptor. */
  function DescriptorForSite(rev: Revision, s: Structure, m: Measurements, site: nat): (r: Result<SiteDescriptor, OmsError>)
    ensures rev == Detector <==> r.Failure?
    ensures r.Success? ==> r.value.metal == CompositionString(SpeciesAt(s, site)) && r.value.open == SiteOpen(rev, s, m, site).value
    ensures r.Success? && LowCn(rev, Cn(s, site)) ==> r.value.open == Some(true) && r.value.cn.None? && r.value.lsop.None?
    ensures r.Success? && Cn(s, site) > 8 ==> r.value.open.None? && r.value.cn.None? && r.value.lsop.None?
    ensures r.Success? && 4 <= Cn(s, site) <= 8 ==>
              var names := OpDef(rev, Cn(s, site)).value.names;
              && r.value.cn == Some(Cn(s, site))
              && r.value.lsop.Some? && |r.value.lsop.value| == |names|
              && (forall k :: 0 <= k < |names| ==>
                    r.value.lsop.value[k] == (names[k], m.orderParameter(site, names[k])))
  {
    var metal := CompositionString(SpeciesAt(s, site));
    match GetOpsForSite(rev, s, m, site)
    case Failure(e) =>
      if rev == Detector then Failure(e)
      else if e == LowCoordination then Success(SiteDescriptor(metal, None, Some(true), None))
      else Success(SiteDescriptor(metal, None, None, None))
    case Success(ops) =>
      if ops.lsop.None? then Failure(ZipOfNone)
      else
        var verdict := CheckIfOpen(ops.lsop, ops.openMask, ops.weights);
        Success(SiteDescriptor(metal, Some(Zip(ops.names.value, ops.lsop.value)), verdict, Some(ops.cn)))
  }

  /** `get_metal_descriptors_for_site`: `NoMetal` first, then the site's descriptor; the
      site is recorded as open when its verdict is truthy. */
  function MetalDescriptorsForSite(rev: Revision, t: PeriodicTable, s: Structure, m: Measurements, open: set<nat>, site: nat): (r: Result<(set<nat>, SiteDescriptor), OmsError>)
    ensures |MetalSites(rev, t, s)| == 0 ==> r == Failure(NoMetal)
    ensures r.Success? ==> DescriptorForSite(rev, s, m, site) == Success(r.value.1)
    ensures r.Success? ==> r.value.0 == (if Truthy(r.value.1.open) && 4 <= Cn(s, site) then open + {site} else open)
    ensures r.Success? && OpenSound(rev, s, m, open) ==> OpenSound(rev, s, m, r.value.0)
  {
    if |MetalSites(rev, t, s)| == 0 then Failure(NoMetal)
    else
      match DescriptorForSite(rev, s, m, site)
      case Failure(e) => Failure(e)
      case Success(d) =>
        var recorded := if d.lsop.Some? && Truthy(d.open) then open + {site} else open;
        Success((recorded, d))
  }

  /** The loop of `_get_metal_descriptors` over the given sites, in the two `mofchecker`
      copies, where no descriptor fails. */
  function DescribeSites(rev: Revision, s: Structure, m: Measurements, open: set<nat>, sites: seq<nat>): (r: (set<nat>, map<nat, SiteDescriptor>))
    requires rev != Detector
    ensures forall i :: i in r.1 <==> i in sites
    ensures forall i :: i in r.1 ==> DescriptorForSite(rev, s, m, i) == Success(r.1[i])
    ensures open <= r.0
    ensures forall i :: i in r.0 ==> i in open || i in sites
    ensures forall i :: i in sites && 4 <= Cn(s, i) && ReportsOpen(rev, s, m, i) ==> i in r.0
    ensures OpenSound(rev, s, m, open) ==> OpenSound(rev, s, m, r.0)
    decreases |sites|
  {
    if |sites| == 0 then (open, map[])
    else
      var d := DescriptorForSite(rev, s, m, sites[0]).value;
      var recorded := if d.lsop.Some? && Truthy(d.open) then open + {sites[0]} else open;
      assert DescriptorForSite(rev, s, m, sites[0]) == Success(d);
      assert d.lsop.Some? && Truthy(d.open) ==> ReportsOpen(rev, s, m, sites[0]);
      assert 4 <= Cn(s, sites[0]) && ReportsOpen(rev, s, m, sites[0]) ==> sites[0] in recorded;
      assert OpenSound(rev, s, m, open) ==> OpenSound(rev, s, m, recorded);
      var rest := DescribeSites(rev, s, m, recorded, sites[1..]);
      assert forall i :: i in sites <==> i == sites[0] || i in sites[1..];
      (rest.0, rest.1[sites[0] := d])
  }

  /** `get_metal_descriptors`: `NoMetal` without metals, otherwise one descriptor per
      metal index; the detector fails on its first metal. */
  function MetalDescriptors(rev: Revision, t: PeriodicTable, s: Structure, m: Measurements, open: set<nat>): (r: Result<(set<nat>, map<nat, SiteDescriptor>), OmsError>)
    ensures |MetalSites(rev, t, s)| == 0 ==> r == Failure(NoMetal)
    ensures rev != Detector ==> (r.Success? <==> |MetalSites(rev, t, s)| > 0)
    ensures rev == Detector ==> r.Failure?
    ensures r.Success? ==> forall i: nat :: i in r.value.1 <==> i < Size(s) && s.species[i] in t.metals
    ensures r.Success? ==> forall i :: i in r.value.1 ==> DescriptorForSite(rev, s, m, i) == Success(r.value.1[i])
  {
    var metals := MetalSites(rev, t, s);
    if |metals| == 0 then Failure(NoMetal)
    else if rev == Detector then Failure(DescriptorForSite(rev, s, m, metals[0]).error)
    else Success(DescribeSites(rev, s, m, open, metals))
  }

  // ---------------------------------------------------------------------------------
  // `has_oms` of the legacy `MOFChecker` and of `OMSDetector`

  /** The loop of `has_oms`: stop at the first truthy site. */
  function FirstOpen(rev: Revision, s: Structure, m: Measurements, open: set<nat>, sites: seq<nat>): (r: Result<(set<nat>, bool), OmsError>)
    ensures rev != Detector ==> r.Success?
    ensures r.Failure? ==> r.error == HighCoordination
    ensures r.Success? ==> open <= r.value.0
    ensures OpenSound(rev, s, m, open) && r.Success? ==>
              && OpenSound(rev, s, m, r.value.0)
              && (r.value.1 <==> exists i :: i in sites && ReportsOpen(rev, s, m, i))
    ensures r.Failure? ==> exists i :: i in sites && Cn(s, i) > 8
    ensures (forall i :: i in sites ==> Cn(s, i) <= 8) ==> r.Success?
    decreases |sites|
  {
    if |sites| == 0 then Success((open, false))
    else
      match IsSiteOpen(rev, s, m, open, sites[0])
      case Failure(e) => Failure(e)
      case Success(step) =>
        if Truthy(step.1) then
          assert sites[0] in sites;
          Success((step.0, true))
        else
          var rest := FirstOpen(rev, s, m, step.0, sites[1..]);
          assert forall i :: i in sites <==> i == sites[0] || i in sites[1..];
          rest
  }

  /** The state `has_oms` keeps: the recorded open indices and the memoised answer. */
  datatype OmsMemo = OmsMemo(open: set<nat>, hasOms: Option<bool>)

  /** The memoised answer, when present, is the one the classification gives. */
  predicate MemoSound(rev: Revision, t: PeriodicTable, s: Structure, m: Measurements, st: OmsMemo) {
    OpenSound(rev, s, m, st.open)
    && (st.hasOms.Some? ==>
          (st.hasOms.value <==> exists i :: i in MetalSites(rev, t, s) && ReportsOpen(rev, s, m, i)))
  }

  /** `has_oms`: `NoMetal` without metals (checked before the memo), the memoised answer
      when there is one, otherwise whether some metal site is truthy, which is then
      memoised. An error escaping the detector's loop leaves the memo empty. */
  function HasOms(rev: Revision, t: PeriodicTable, s: Structure, m: Measurements, st: OmsMemo): (r: Result<(OmsMemo, bool), OmsError>)
    requires rev != Current
    ensures |MetalSites(rev, t, s)| == 0 <==> r == Failure(NoMetal)
    ensures rev == Legacy ==> (r.Success? <==> |MetalSites(rev, t, s)| > 0)
    ensures r.Success? ==> r.value.0.hasOms == Some(r.value.1)
    ensures r.Success? && st.hasOms.Some? ==> r.value == (st, st.hasOms.value)
    ensures MemoSound(rev, t, s, m, st) && r.Success? ==>
              && MemoSound(rev, t, s, m, r.value.0)
              && (r.value.1 <==> exists i :: i in MetalSites(rev, t, s) && ReportsOpen(rev, s, m, i))
    ensures r.Failure? && r.error != NoMetal ==> exists i :: i in MetalSites(rev, t, s) && Cn(s, i) > 8
  {
    var metals := MetalSites(rev, t, s);
    if |metals| == 0 then Failure(NoMetal)
    else if st.hasOms.Some? then Success((st, st.hasOms.value))
    else
      match FirstOpen(rev, s, m, st.open, metals)
      case Failure(e) => Failure(e)
      case Success(scan) => Success((OmsMemo(scan.0, Some(scan.1)), scan.1))
  }

  /** Asking `has_oms` twice gives the same answer and leaves the state as the first
      call did. */
  lemma HasOmsMemoised(rev: Revision, t: PeriodicTable, s: Structure, m: Measurements, st: OmsMemo)
    requires rev != Current
    requires HasOms(rev, t, s, m, st).Success?
    ensures var first := HasOms(rev, t, s, m, st).value;
            HasOms(rev, t, s, m, first.0) == Success(first)
  {
  }

  /** In the detector only a coordination number below 3 makes a site open: every site
      with 3 to 8 connected sites reaches a row without weights and is never reported. */
  lemma DetectorOpenOnlyWhenLow(s: Structure, m: Measurements, site: nat)
    ensures ReportsOpen(Detector, s, m, site) <==> Cn(s, site) < 3
  {
  }
}
