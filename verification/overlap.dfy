/** Atomic overlaps: two atoms overlap when their distance is below the tolerance times
    the smaller of their covalent radii. */
module Overlap {
  import opened Seqs
  import opened Crystal
  import opened CheckBase
  import opened Radii

  /** Default tolerance factor. */
  const DefaultTolerance: real := 1.0

  /** A square distance matrix matching the atom list. */
  predicate Square(dist: seq<seq<real>>, n: nat) {
    |dist| == n && forall k :: 0 <= k < |dist| ==> |dist[k]| == n
  }

  function MinReal(a: real, b: real): real {
    if a <= b then a else b
  }

  /** Atoms `a` and `b` overlap: they are different, and the distance read from the upper
      triangle is below `tol` times the smaller radius. */
  predicate Overlapping(dist: seq<seq<real>>, radii: seq<real>, tol: real, a: nat, b: nat)
    requires Square(dist, |radii|) && a < |radii| && b < |radii|
  {
    a != b
    && var lo := if a < b then a else b;
       var hi := if a < b then b else a;
       dist[lo][hi] < tol * MinReal(radii[a], radii[b])
  }

  /** `_compute_overlap_matrix` over the radius of every atom: for every pair i < j read
      `dist[i][j]` and, on overlap, set both (i, j) and (j, i) to 1. */
  method ComputeOverlapMatrix(dist: seq<seq<real>>, radii: seq<real>, tol: real) returns (om: seq<seq<int>>)
    requires Square(dist, |radii|)
    ensures |om| == |radii| && forall a :: 0 <= a < |om| ==> |om[a]| == |radii|
    ensures forall a, b :: 0 <= a < |radii| && 0 <= b < |radii| ==>
              om[a][b] == (if Overlapping(dist, radii, tol, a, b) then 1 else 0)
  {
    var n := |radii|;
    om := seq(n, _ => seq(n, _ => 0));
    var i := 0;
    while i + 1 < n
      invariant 0 <= i <= n
      invariant |om| == n && forall a :: 0 <= a < n ==> |om[a]| == n
      invariant forall a, b :: 0 <= a < n && 0 <= b < n ==>
                  om[a][b] == (if (a < i || b < i) && Overlapping(dist, radii, tol, a, b) then 1 else 0)
    {
      var j := i + 1;
      while j < n
        invariant i + 1 <= j <= n
        invariant |om| == n && forall a :: 0 <= a < n ==> |om[a]| == n
        invariant forall a, b :: 0 <= a < n && 0 <= b < n ==>
                    om[a][b] == (if (a < i || b < i || (a == i && b < j) || (b == i && a < j))
                                    && Overlapping(dist, radii, tol, a, b) then 1 else 0)
      {
        if dist[i][j] < tol * MinReal(radii[i], radii[j]) {
          om := om[i := om[i][j := 1]];
          om := om[j := om[j][i := 1]];
        }
        j := j + 1;
      }
      i := i + 1;
    }
  }

  /** The overlap matrix is symmetric and has a zero diagonal. */
  lemma OverlapSymmetric(dist: seq<seq<real>>, radii: seq<real>, tol: real, a: nat, b: nat)
    requires Square(dist, |radii|) && a < |radii| && b < |radii|
    ensures Overlapping(dist, radii, tol, a, b) == Overlapping(dist, radii, tol, b, a)
    ensures !Overlapping(dist, radii, tol, a, a)
  {
  }

  /** Rows of the matrix with a non-zero entry (`list(set(sparse.find(m)[0]))`), each once.
      The source lists them in the iteration order of a Python set; the model fixes one
      order, ascending. */
  function RowsWithEntries(om: seq<seq<int>>): (r: seq<nat>)
    ensures forall a: nat :: a in r <==> a < |om| && exists b :: 0 <= b < |om[a]| && om[a][b] != 0
    ensures StrictlyIncreasing(r)
  {
    Positions(om, (row: seq<int>) => exists b :: 0 <= b < |row| && row[b] != 0)
  }

  /** Atoms `a` and `b` overlap by their covalent radii at the default tolerance. */
  predicate CovalentOverlap(dist: seq<seq<real>>, species: seq<Element>, tables: RadiusTables, a: nat, b: nat)
    requires Square(dist, |species|) && a < |species| && b < |species| && |tables.covalent.entries| > 0
  {
    a != b
    && dist[if a < b then a else b][if a < b then b else a]
         < DefaultTolerance * MinReal(CovalentRadius(tables, species[a]), CovalentRadius(tables, species[b]))
  }

  /** `_get_overlaps` with `AtomicOverlapCheck._run_check`: every atom in at least one
      overlapping pair, listed once; the check passes iff there is none. */
  method AtomicOverlaps(dist: seq<seq<real>>, species: seq<Element>, tables: RadiusTables) returns (r: IndexOutcome)
    requires Square(dist, |species|) && |tables.covalent.entries| > 0
    ensures r.ok <==> |r.indices| == 0
    ensures NoDuplicates(r.indices)
    ensures forall a: nat :: a in r.indices <==>
              (a < |species| && exists b :: 0 <= b < |species| && CovalentOverlap(dist, species, tables, a, b))
  {
    var radii := seq(|species|, k requires 0 <= k < |species| => CovalentRadius(tables, species[k]));
    var om := ComputeOverlapMatrix(dist, radii, DefaultTolerance);
    var rows := RowsWithEntries(om);
    IncreasingHasNoDuplicates(rows);
    r := Outcome(rows);
    forall a: nat | a < |species|
      ensures (exists b :: 0 <= b < |om[a]| && om[a][b] != 0) <==> exists b :: 0 <= b < |species| && CovalentOverlap(dist, species, tables, a, b)
    {
      if exists b :: 0 <= b < |species| && CovalentOverlap(dist, species, tables, a, b) {
        var b :| 0 <= b < |species| && CovalentOverlap(dist, species, tables, a, b);
        assert Overlapping(dist, radii, DefaultTolerance, a, b);
        assert om[a][b] != 0;
      }
      if exists b :: 0 <= b < |om[a]| && om[a][b] != 0 {
        var b :| 0 <= b < |om[a]| && om[a][b] != 0;
        assert Overlapping(dist, radii, DefaultTolerance, a, b);
        assert CovalentOverlap(dist, species, tables, a, b);
      }
    }
  }
}
