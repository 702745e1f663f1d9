/** The isolatedness term shared by both strategies' `calculate_bond_potential`
    (pair_prediction/predict_polymerization.py and
    pair_prediction/predict_cycloaddition.py), and the strategy constants.

    Both bodies collect the chain endpoints of the committed pairs of their
    strategy in a loop and then count, after the loop, the chains of the loop
    variable `pair`, which by then names the LAST committed pair. The count
    therefore never looks at the candidate being scored; this module models
    that as written. */
module Isolation {
  import opened Molecule
  import opened Pairs

  /** The equilibrium bonding distance, in angstroms. */
  const IDEAL_BOND_DIST: real := 3.0
  const BOND_DIST_STD: real := 2.5
  const MAX_CONNECTIVITY: int := 8

  /** `bond_potential(atom_dist, dist_equilibrium, dist_variance, iso_weight,
      isolatedness, Cmax)`. Its exponential formula is floating-point
      arithmetic, so the model takes it as a parameter of the engine. */
  type BondPotential = (real, real, real, real, int, int) -> real

  /** The chains of the committed pairs, two per pair, in commit order,
      duplicates kept. */
  function ChainEnds(pairs: seq<Pair>): (ends: seq<Chain>)
    ensures |ends| == 2 * |pairs|
  {
    if pairs == [] then []
    else ChainEnds(pairs[..|pairs| - 1]) + [pairs[|pairs| - 1].chain1, pairs[|pairs| - 1].chain2]
  }

  lemma ChainEndsSnoc(pairs: seq<Pair>, pair: Pair)
    ensures ChainEnds(pairs + [pair]) == ChainEnds(pairs) + [pair.chain1, pair.chain2]
  {
    assert (pairs + [pair])[..|pairs|] == pairs;
  }

  /** Both chains of every committed pair occur in the endpoint list at the
      pair's two positions. */
  lemma {:induction false} ChainEndsAt(pairs: seq<Pair>, i: nat)
    requires i < |pairs|
    ensures ChainEnds(pairs)[2 * i] == pairs[i].chain1
    ensures ChainEnds(pairs)[2 * i + 1] == pairs[i].chain2
  {
    if i < |pairs| - 1 {
      ChainEndsAt(pairs[..|pairs| - 1], i);
    }
  }

  /** `chains.count(chain)`: list membership compares with `Chain.__eq__`,
      that is by chain id. */
  function ChainCount(chains: seq<Chain>, chain: Chain): (n: nat)
    ensures n <= |chains|
    ensures n > 0 <==> ChainIn(chain, chains)
  {
    if chains == [] then 0
    else
      var init := chains[..|chains| - 1];
      var last := chains[|chains| - 1];
      assert forall i :: 0 <= i < |init| ==> init[i] == chains[i];
      ChainCount(init, chain) + (if last.Equals(chain) then 1 else 0)
  }

  /** The isolatedness a strategy passes to `bond_potential`:
      `MAX_CONNECTIVITY` with no committed pair, otherwise
      `MAX_CONNECTIVITY` less the number of endpoints on the last committed
      pair's two chains. */
  function Isolatedness(committed: seq<Pair>): int {
    if committed == [] then MAX_CONNECTIVITY
    else
      var ends := ChainEnds(committed);
      var last := committed[|committed| - 1];
      MAX_CONNECTIVITY - (ChainCount(ends, last.chain1) + ChainCount(ends, last.chain2))
  }

  /** The isolatedness lies between `MAX_CONNECTIVITY - 4 * n` and
      `MAX_CONNECTIVITY`, and is at most `MAX_CONNECTIVITY - 2` once a pair is
      committed, because the last pair's own chains are among the counted
      endpoints. */
  lemma IsolatednessBounds(committed: seq<Pair>)
    ensures Isolatedness(committed) <= MAX_CONNECTIVITY
    ensures committed == [] ==> Isolatedness(committed) == MAX_CONNECTIVITY
    ensures committed != [] ==>
              MAX_CONNECTIVITY - 4 * |committed| <= Isolatedness(committed) <= MAX_CONNECTIVITY - 2
  {
    if committed != [] {
      var n := |committed| - 1;
      var ends := ChainEnds(committed);
      ChainEndsAt(committed, n);
      assert ends[2 * n].Equals(committed[n].chain1);
      assert ends[2 * n + 1].Equals(committed[n].chain2);
    }
  }

  /** After the first commit, on two chains of different ids, each chain
      is counted once. */
  lemma IsolatednessSingle(pair: Pair)
    requires !pair.chain1.Equals(pair.chain2)
    ensures Isolatedness([pair]) == MAX_CONNECTIVITY - 2
  {
    var ends := ChainEnds([pair]);
    assert ends == [pair.chain1, pair.chain2];
    assert ends[..1] == [pair.chain1];
    assert [pair.chain1][..0] == [];
    assert ChainCount([pair.chain1], pair.chain1) == 1;
    assert ChainCount([pair.chain1], pair.chain2) == 0;
  }

  /** The loop of `calculate_bond_potential` that collects the endpoints,
      followed by the two counts. */
  method ComputeIsolatedness(committed: seq<Pair>) returns (isolatedness: int)
    ensures isolatedness == Isolatedness(committed)
  {
    if |committed| > 0 {
      var allBondedChains: seq<Chain> := [];
      for i := 0 to |committed|
        invariant allBondedChains == ChainEnds(committed[..i])
      {
        assert committed[..i + 1][..i] == committed[..i];
        allBondedChains := allBondedChains + [committed[i].chain1];
        allBondedChains := allBondedChains + [committed[i].chain2];
      }
      assert committed[..|committed|] == committed;
      var pair := committed[|committed| - 1];
      var chain1Iso := ChainCount(allBondedChains, pair.chain1);
      var chain2Iso := ChainCount(allBondedChains, pair.chain2);
      var connectivity := chain1Iso + chain2Iso;
      isolatedness := MAX_CONNECTIVITY - connectivity;
    } else {
      isolatedness := MAX_CONNECTIVITY;
    }
  }
}
