/** The data every check reads: a crystal's species, its neighbour graph as connected-site
    lists, the element classifications of the periodic table, and the geometric
    measurements that the model takes as given. */
module Crystal {
  import opened Wrappers

  /** A species string such as "C", "Cu" or "O" (`str(site.specie)`). */
  type Element = string

  /** Periodic image offset of a neighbour, in lattice vectors. */
  datatype Image = Image(a: int, b: int, c: int)

  /** One entry of a site's connected-site list: which site, in which periodic image, at
      which bond length. */
  datatype ConnectedSite = ConnectedSite(index: nat, image: Image, distance: real)

  /** A crystal structure together with its structure graph: site `i` has species
      `species[i]` and connected sites `neighbors[i]`. */
  datatype Structure = Structure(species: seq<Element>, neighbors: seq<seq<ConnectedSite>>)

  /** One connected-site list per site, every neighbour index names a site, and every
      neighbour has a non-empty list of its own (the structure graph is undirected). */
  predicate WellFormed(s: Structure) {
    |s.neighbors| == |s.species|
    && forall i, k :: 0 <= i < |s.neighbors| && 0 <= k < |s.neighbors[i]| ==>
         s.neighbors[i][k].index < |s.species| && |s.neighbors[s.neighbors[i][k].index]| > 0
  }

  function Size(s: Structure): nat {
    |s.species|
  }

  /** Species of site `i`; the empty string stands for an index outside the structure. */
  function SpeciesAt(s: Structure, i: nat): Element {
    if i < |s.species| then s.species[i] else ""
  }

  /** The connected sites of site `i` in the structure graph. */
  function ConnectedSites(s: Structure, i: nat): seq<ConnectedSite> {
    if i < |s.neighbors| then s.neighbors[i] else []
  }

  /** Coordination number: the number of connected sites. */
  function Cn(s: Structure, i: nat): nat {
    |ConnectedSites(s, i)|
  }

  /** Element classifications the source takes from pymatgen and from its own `METALS`
      list; neither table is part of this model, so they are parameters. */
  datatype PeriodicTable = PeriodicTable(
    metals: set<Element>,         // the METALS list of the package definitions
    pymatgenMetals: set<Element>, // pymatgen `Element.is_metal`
    rareEarth: set<Element>,
    alkali: set<Element>,
    alkaline: set<Element>,
    halogens: set<Element>,
    lanthanoids: set<Element>,
    actinoids: set<Element>,
    withAtomicRadius: set<Element>)

  /** A point or a vector in Cartesian coordinates. */
  datatype Vec3 = Vec3(x: real, y: real, z: real)

  /** Geometric quantities computed by pymatgen, numpy and the cone-angle library, given to
      the model as exact values. */
  datatype Measurements = Measurements(
    angle: (nat, nat, nat) -> real,          // `Structure.get_angle(i, j, k)`: angle at site j
    siteAngle: nat -> real,                  // angle at a site between its first two connected sites
    dihedral: (nat, nat, nat, nat) -> real,  // `Structure.get_dihedral`
    distance: (nat, nat) -> real,            // `Structure.get_distance`
    hydrogenShell: nat -> nat,               // number of sites within the vdW radius of H
    vdwShell: nat -> nat,                    // number of sites within 1.5 times the site's own vdW radius
    openAngle: nat -> Option<real>,          // 360 degrees minus the cone angle; None is NaN
    orderParameter: (nat, string) -> real,   // local order parameter of a named motif at a site
    hydrogen: (nat, nat) -> Vec3)            // k-th candidate hydrogen position placed at a site
}
