/** A candidate or committed cross-link (pair_prediction/tools/pair.py). The
    two atoms, their chains and the distance are fixed at construction; the
    score (`probability`) is updated in place by the bond engine. */
module Pairs {
  import opened Molecule
  import opened Seqs

  class Pair {
    const atom1: Atom
    const atom2: Atom
    const chain1: Chain := atom1.chain
    const chain2: Chain := atom2.chain
    const distance: real
    var probability: real

    constructor(atom1: Atom, atom2: Atom, distance: real)
      ensures this.atom1 == atom1 && this.atom2 == atom2 && this.distance == distance
      ensures chain1 == atom1.chain && chain2 == atom2.chain
      ensures probability == 0.0
    {
      this.atom1, this.atom2, this.distance := atom1, atom2, distance;
      probability := 0.0;
    }

    method SetProbability(probability: real)
      modifies this
      ensures this.probability == probability
    {
      this.probability := probability;
    }

    /** `Pair.__lt__`, inverted so that Python's min-heap yields the highest score. */
    predicate Less(other: Pair)
      reads this, other
    {
      probability > other.probability
    }

    /** `Pair.__eq__` and `Pair.__hash__` look at the distance only. */
    predicate Equals(other: Pair) {
      distance == other.distance
    }

    /** True when the two pairs have a residue sequence number (chain id) in common. */
    predicate IsSameChain(other: Pair) {
      atom1.resSeq in [other.atom1.resSeq, other.atom2.resSeq]
      || atom2.resSeq in [other.atom1.resSeq, other.atom2.resSeq]
    }

    /** True when the two pairs have an atom in common under `Atom.__eq__`. */
    predicate AreAtomsMatching(other: Pair) {
      AtomIn(atom1, [other.atom1, other.atom2]) || AtomIn(atom2, [other.atom1, other.atom2])
    }

    /** The pairs of `pairs` that share a chain with this pair, in their order. */
    method GetChainBranchingPairs(pairs: seq<Pair>) returns (linking: seq<Pair>)
      ensures linking == Filter(pairs, (p: Pair) => IsSameChain(p))
    {
      linking := [];
      for i := 0 to |pairs|
        invariant linking == Filter(pairs[..i], (p: Pair) => IsSameChain(p))
      {
        assert pairs[..i + 1][..i] == pairs[..i];
        if IsSameChain(pairs[i]) {
          linking := linking + [pairs[i]];
        }
      }
      assert pairs[..|pairs|] == pairs;
    }

    /** The pairs of `pairs` that share an atom with this pair, in their order. */
    method GetAtomBranchingPairs(pairs: seq<Pair>) returns (linking: seq<Pair>)
      ensures linking == Filter(pairs, (p: Pair) => AreAtomsMatching(p))
    {
      linking := [];
      for i := 0 to |pairs|
        invariant linking == Filter(pairs[..i], (p: Pair) => AreAtomsMatching(p))
      {
        assert pairs[..i + 1][..i] == pairs[..i];
        if AreAtomsMatching(pairs[i]) {
          linking := linking + [pairs[i]];
        }
      }
      assert pairs[..|pairs|] == pairs;
    }

    /** Commits the pair: each chain records the other, both atoms become bonded. */
    method BondPair()
      modifies chain1, chain2, atom1, atom2
      ensures chain1 != chain2 ==> chain1.bondedChains == old(chain1.bondedChains) + [chain2]
      ensures chain1 != chain2 ==> chain2.bondedChains == old(chain2.bondedChains) + [chain1]
      ensures chain1 == chain2 ==> chain1.bondedChains == old(chain1.bondedChains) + [chain2, chain1]
      ensures chain1.atoms == old(chain1.atoms) && chain2.atoms == old(chain2.atoms)
      ensures atom1.isBondedExternal && atom2.isBondedExternal
      ensures atom1.isPaired == old(atom1.isPaired) && atom2.isPaired == old(atom2.isPaired)
    {
      chain1.AddBondedChain(chain2);
      chain2.AddBondedChain(chain1);
      atom1.isBondedExternal := true;
      atom2.isBondedExternal := true;
    }
  }

  /** `is_same_chain` is symmetric. */
  lemma IsSameChainSymmetric(p: Pair, q: Pair)
    ensures p.IsSameChain(q) <==> q.IsSameChain(p)
  {
  }

  /** `is_same_chain` is reflexive, so a committed pair is always among its own branching pairs. */
  lemma IsSameChainReflexive(p: Pair)
    ensures p.IsSameChain(p)
  {
  }

  /** `are_atoms_matching` is reflexive and symmetric. */
  lemma AreAtomsMatchingSymmetric(p: Pair, q: Pair)
    ensures p.AreAtomsMatching(p)
    ensures p.AreAtomsMatching(q) <==> q.AreAtomsMatching(p)
  {
    assert [p.atom1, p.atom2][0] == p.atom1;
    if p.AreAtomsMatching(q) {
      if AtomIn(p.atom1, [q.atom1, q.atom2]) {
        var i :| 0 <= i < 2 && [q.atom1, q.atom2][i].Equals(p.atom1);
        if i == 0 { assert [p.atom1, p.atom2][0].Equals(q.atom1); } else { assert [p.atom1, p.atom2][0].Equals(q.atom2); }
      } else {
        var i :| 0 <= i < 2 && [q.atom1, q.atom2][i].Equals(p.atom2);
        if i == 0 { assert [p.atom1, p.atom2][1].Equals(q.atom1); } else { assert [p.atom1, p.atom2][1].Equals(q.atom2); }
      }
    }
    if q.AreAtomsMatching(p) {
      if AtomIn(q.atom1, [p.atom1, p.atom2]) {
        var i :| 0 <= i < 2 && [p.atom1, p.atom2][i].Equals(q.atom1);
        if i == 0 { assert [q.atom1, q.atom2][0].Equals(p.atom1); } else { assert [q.atom1, q.atom2][0].Equals(p.atom2); }
      } else {
        var i :| 0 <= i < 2 && [p.atom1, p.atom2][i].Equals(q.atom2);
        if i == 0 { assert [q.atom1, q.atom2][1].Equals(p.atom1); } else { assert [q.atom1, q.atom2][1].Equals(p.atom2); }
      }
    }
  }
}
