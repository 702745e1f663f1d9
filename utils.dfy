/** Helpers of pair_prediction/tools/utils.py: coordinates of atoms, the
    same-chain filter applied to the neighbour-query result, and the distance
    between two atoms. */
module Utils {
  import opened Molecule
  import opened Seqs
  import opened Validation

  datatype Coord = Coord(x: real, y: real, z: real)

  /** One row per atom holding its coordinates. */
  method AtomsToCoords(atoms: seq<Atom>) returns (coords: array<Coord>)
    ensures coords.Length == |atoms|
    ensures forall i :: 0 <= i < |atoms| ==> coords[i] == Coord(atoms[i].x, atoms[i].y, atoms[i].z)
  {
    coords := new Coord[|atoms|];
    for i := 0 to |atoms|
      invariant forall j :: 0 <= j < i ==> coords[j] == Coord(atoms[j].x, atoms[j].y, atoms[j].z)
    {
      coords[i] := Coord(atoms[i].x, atoms[i].y, atoms[i].z);
    }
  }

  /** The squared Euclidean distance between two atoms. `calc_distance` takes
      its square root, which is not modelled; `DistanceOrder` shows that the
      squares compare exactly as their non-negative roots do. */
  function SquaredDistance(atom1: Atom, atom2: Atom): (d: real)
    ensures d >= 0.0
  {
    var dx, dy, dz := atom1.x - atom2.x, atom1.y - atom2.y, atom1.z - atom2.z;
    dx * dx + dy * dy + dz * dz
  }

  /** For non-negative roots `d1` and `d2` of two squared distances (the values
      `calc_distance` returns), the roots compare exactly as the squares do,
      so ordering by `SquaredDistance` orders by distance. */
  lemma DistanceOrder(a1: Atom, a2: Atom, b1: Atom, b2: Atom, d1: real, d2: real)
    requires d1 >= 0.0 && d2 >= 0.0
    requires d1 * d1 == SquaredDistance(a1, a2) && d2 * d2 == SquaredDistance(b1, b2)
    ensures d1 <= d2 <==> SquaredDistance(a1, a2) <= SquaredDistance(b1, b2)
    ensures d1 == d2 <==> SquaredDistance(a1, a2) == SquaredDistance(b1, b2)
  {
    if d1 < d2 {
      SquareMonotone(d1, d2);
    } else if d2 < d1 {
      SquareMonotone(d2, d1);
    }
  }

  /** Squaring is strictly increasing on the non-negative reals. */
  lemma SquareMonotone(x: real, y: real)
    requires 0.0 <= x < y
    ensures x * x < y * y
  {
    var xx, xy, yy := x * x, x * y, y * y;
    assert xx <= xy;
    assert xy < yy;
  }

  /** What the loops of `remove_1st_and_chain` need of the neighbour query:
      one distance per index, and every index naming a reactive atom. */
  predicate WellShaped(indices: seq<seq<int>>, distances: seq<seq<real>>, n: nat) {
    |indices| <= n && |indices| <= |distances|
    && forall q :: 0 <= q < |indices| ==>
         |indices[q]| <= |distances[q]|
         && forall k :: 0 <= k < |indices[q]| ==> 0 <= indices[q][k] < n
  }

  /** The (index, distance) entries of one query row. */
  function Zip(row: seq<int>, dists: seq<real>): (z: seq<(int, real)>)
    requires |row| <= |dists|
    ensures |z| == |row|
  {
    seq(|row|, k requires 0 <= k < |row| => (row[k], dists[k]))
  }

  /** Keeps a neighbour of `atoms[q]` when it lies on another chain. */
  function OtherChain(atoms: seq<Atom>, q: nat): ((int, real)) -> bool
    requires q < |atoms|
  {
    (e: (int, real)) => 0 <= e.0 < |atoms| && !AreAtomsSameChain(atoms[q], atoms[e.0])
  }

  /** The rows `remove_1st_and_chain` returns: for each query atom, its
      neighbours on other chains with their distances, in query order. */
  method RemoveFirstAndChain(indices: seq<seq<int>>, distances: seq<seq<real>>, reactiveAtoms: seq<Atom>)
    returns (indicesFiltered: seq<seq<int>>, distancesFiltered: seq<seq<real>>)
    requires WellShaped(indices, distances, |reactiveAtoms|)
    ensures |indicesFiltered| == |indices| == |distancesFiltered|
    ensures forall q :: 0 <= q < |indices| ==>
              |indicesFiltered[q]| == |distancesFiltered[q]|
              && Zip(indicesFiltered[q], distancesFiltered[q])
                 == Filter(Zip(indices[q], distances[q]), OtherChain(reactiveAtoms, q))
  {
    indicesFiltered, distancesFiltered := [], [];
    for q := 0 to |indices|
      invariant |indicesFiltered| == q == |distancesFiltered|
      invariant forall q' :: 0 <= q' < q ==>
                  |indicesFiltered[q']| == |distancesFiltered[q']|
                  && Zip(indicesFiltered[q'], distancesFiltered[q'])
                     == Filter(Zip(indices[q'], distances[q']), OtherChain(reactiveAtoms, q'))
    {
      var row, dists := indices[q], distances[q];
      var innerIndices: seq<int>, innerDistances: seq<real> := [], [];
      for k := 0 to |row|
        invariant |innerIndices| == |innerDistances|
        invariant Zip(innerIndices, innerDistances) == Filter(Zip(row[..k], dists), OtherChain(reactiveAtoms, q))
      {
        assert Zip(row[..k + 1], dists)[..k] == Zip(row[..k], dists);
        if !AreAtomsSameChain(reactiveAtoms[q], reactiveAtoms[row[k]]) {
          assert Zip(innerIndices + [row[k]], innerDistances + [dists[k]])
                 == Zip(innerIndices, innerDistances) + [(row[k], dists[k])];
          innerIndices := innerIndices + [row[k]];
          innerDistances := innerDistances + [dists[k]];
        }
      }
      assert row[..|row|] == row;
      indicesFiltered := indicesFiltered + [innerIndices];
      distancesFiltered := distancesFiltered + [innerDistances];
    }
  }

  /** A kept neighbour lies on another chain, so the query atom itself (and
      any atom of its own chain) is never kept. */
  lemma KeptNeighboursOnOtherChains(atoms: seq<Atom>, q: nat, row: seq<int>, dists: seq<real>, k: nat)
    requires q < |atoms| && |row| <= |dists|
    requires var kept := Filter(Zip(row, dists), OtherChain(atoms, q)); k < |kept|
    ensures var e := Filter(Zip(row, dists), OtherChain(atoms, q))[k];
            0 <= e.0 < |atoms| && e.0 != q && !AreAtomsSameChain(atoms[q], atoms[e.0])
  {
  }
}
