/** The pair-validity rules of pair_prediction/tools/constraint_validation.py:
    boolean expressions over atom flags and chain fields. */
module Validation {
  import opened Molecule

  /** Either atom is already an endpoint of a committed cross-link. */
  predicate AreAtomsBonded(atom1: Atom, atom2: Atom)
    reads atom1, atom2
  {
    atom1.isBondedExternal || atom2.isBondedExternal
  }

  /** `chain1` occurs (by chain id) among the chains `chain2` has bonded to. */
  predicate AreChainsBonded(chain1: Chain, chain2: Chain)
    reads chain2
  {
    ChainIn(chain1, chain2.bondedChains)
  }

  predicate AreChainsSameType(chain1: Chain, chain2: Chain) {
    chain1.chainType == chain2.chainType
  }

  /** The atoms' chains are equal under `Chain.__eq__`, that is by chain id. */
  predicate AreAtomsSameChain(atom1: Atom, atom2: Atom) {
    atom1.chain.Equals(atom2.chain)
  }

  /** Neither atom bonded, and the chains of different types. */
  predicate IsValidSurfacePair(atom1: Atom, atom2: Atom)
    reads atom1, atom2
  {
    !AreAtomsBonded(atom1, atom2) && !AreChainsSameType(atom1.chain, atom2.chain)
  }

  /** A surface pair whose chains have not bonded to each other yet. */
  predicate IsValidLN2SurfacePair(atom1: Atom, atom2: Atom)
    reads atom1, atom2, atom2.chain
  {
    !AreAtomsBonded(atom1, atom2)
    && !AreChainsSameType(atom1.chain, atom2.chain)
    && !AreChainsBonded(atom1.chain, atom2.chain)
  }

  /** Neither atom bonded, and the chains not bonded to each other yet. */
  predicate IsValidCorePair(atom1: Atom, atom2: Atom)
    reads atom1, atom2, atom2.chain
  {
    !AreAtomsBonded(atom1, atom2) && !AreChainsBonded(atom1.chain, atom2.chain)
  }

  /** The LN2 rule is the surface rule strengthened by the chain-bond rule. */
  lemma LN2RefinesSurface(atom1: Atom, atom2: Atom)
    ensures IsValidLN2SurfacePair(atom1, atom2)
            <==> IsValidSurfacePair(atom1, atom2) && !AreChainsBonded(atom1.chain, atom2.chain)
    ensures IsValidLN2SurfacePair(atom1, atom2) ==> IsValidSurfacePair(atom1, atom2)
  {
  }

  /** Every validity rule is anti-monotone. A commit only sets bonded flags
      and appends to bonded-chain lists; that can make a valid pair invalid,
      never an invalid pair valid. */
  twostate lemma ValidityAntiMonotone(atom1: Atom, atom2: Atom)
    requires old(atom1.isBondedExternal) ==> atom1.isBondedExternal
    requires old(atom2.isBondedExternal) ==> atom2.isBondedExternal
    requires old(atom2.chain.bondedChains) <= atom2.chain.bondedChains
    ensures IsValidCorePair(atom1, atom2) ==> old(IsValidCorePair(atom1, atom2))
    ensures IsValidSurfacePair(atom1, atom2) ==> old(IsValidSurfacePair(atom1, atom2))
    ensures IsValidLN2SurfacePair(atom1, atom2) ==> old(IsValidLN2SurfacePair(atom1, atom2))
  {
  }
}
