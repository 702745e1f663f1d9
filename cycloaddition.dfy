/** The surface cross-linking strategy, `PredictBondsSur`
    (pair_prediction/predict_cycloaddition.py): LN2 surface validity as the
    gate of the score, the surface-pair list as the source of isolatedness,
    and the cycloaddition record of a committed pair, which stores two pairs
    built from the atoms' linking partners on their own chains. Its
    `find_radicals` does nothing. */
module Cycloaddition {
  import opened Wrappers
  import opened Text
  import opened Molecule
  import opened Pairs
  import opened Validation
  import opened PdbStructure
  import opened Isolation

  /** The element symbols and name numbers of pair_prediction/enums.py. */
  const CARBON: string := "C"
  const NITROGEN: string := "N"
  const CARBON_NUMBER: int := 2
  const NITROGEN6_NUMBER: int := 4
  const NITROGEN3_NUMBER: int := 1

  /** `calculate_bond_potential`: 0 for a pair that is not a valid LN2
      surface pair, the bond potential otherwise. */
  function SurfaceScore(pdb: Pdb, potential: BondPotential, weight: real, atom1: Atom, atom2: Atom, atomsDist: real): real
    reads pdb, atom1, atom2, atom2.chain
  {
    if !IsValidLN2SurfacePair(atom1, atom2) then 0.0
    else potential(atomsDist, IDEAL_BOND_DIST, BOND_DIST_STD * BOND_DIST_STD, weight,
                   Isolatedness(pdb.bondedPairsSurface), MAX_CONNECTIVITY)
  }

  method CalculateBondPotential(pdb: Pdb, potential: BondPotential, weight: real,
                                atom1: Atom, atom2: Atom, atomsDist: real) returns (bondPot: real)
    ensures bondPot == SurfaceScore(pdb, potential, weight, atom1, atom2, atomsDist)
  {
    if !IsValidLN2SurfacePair(atom1, atom2) {
      return 0.0;
    }
    var isolatedness := ComputeIsolatedness(pdb.bondedPairsSurface);
    bondPot := potential(atomsDist, IDEAL_BOND_DIST, BOND_DIST_STD * BOND_DIST_STD, weight,
                         isolatedness, MAX_CONNECTIVITY);
  }

  /** As in the core strategy, the isolatedness comes from the last committed
      surface pair, so two valid candidates at the same distance score the
      same whatever their chains. */
  lemma SurfaceScoreIgnoresCandidateChains(pdb: Pdb, potential: BondPotential, weight: real,
                                           a1: Atom, a2: Atom, b1: Atom, b2: Atom, atomsDist: real)
    requires IsValidLN2SurfacePair(a1, a2) && IsValidLN2SurfacePair(b1, b2)
    ensures SurfaceScore(pdb, potential, weight, a1, a2, atomsDist)
            == SurfaceScore(pdb, potential, weight, b1, b2, atomsDist)
  {
  }

  /** The key `lookup_corresponding_atom` builds: the element, the infix and
      the decimal name number. */
  function LookupKey(atom: Atom, infix: string, number: int): string {
    atom.element + infix + ShowInt(number)
  }

  /** The key `find_linking_pair` looks up, if any: a carbon keeps the second
      character of its name and takes number 2; a nitrogen takes number 4
      when the second character of its name is `6` and number 1 when it is
      `3`, and any other second character leaves the result unbound; other
      elements have no key. A name too short to have a second character is an
      `IndexError`. */
  function LinkingKey(atom: Atom): (r: Result<Option<string>>)
    ensures r.Err? ==> r.error == IndexError || r.error == UnboundLocalError
    ensures r == Ok(None) <==> atom.element != CARBON && atom.element != NITROGEN
  {
    if atom.element == CARBON then
      if |atom.name| < 2 then Err(IndexError)
      else Ok(Some(LookupKey(atom, [atom.name[1]], CARBON_NUMBER)))
    else if atom.element == NITROGEN then
      if |atom.name| < 2 then Err(IndexError)
      else if atom.name[1] == '6' then Ok(Some(LookupKey(atom, "", NITROGEN6_NUMBER)))
      else if atom.name[1] == '3' then Ok(Some(LookupKey(atom, "", NITROGEN3_NUMBER)))
      else Err(UnboundLocalError)
    else Ok(None)
  }

  /** The keys written out: `C?2` for a carbon `C?…`, `N4` for `N6…` and `N1`
      for `N3…`. */
  lemma LinkingKeyValues(atom: Atom)
    ensures atom.element == CARBON && |atom.name| >= 2 ==>
              LinkingKey(atom) == Ok(Some(['C', atom.name[1], '2']))
    ensures atom.element == NITROGEN && |atom.name| >= 2 && atom.name[1] == '6' ==>
              LinkingKey(atom) == Ok(Some("N4"))
    ensures atom.element == NITROGEN && |atom.name| >= 2 && atom.name[1] == '3' ==>
              LinkingKey(atom) == Ok(Some("N1"))
  {
    assert ShowInt(2) == "2" && ShowInt(4) == "4" && ShowInt(1) == "1";
    if atom.element == CARBON && |atom.name| >= 2 {
      assert LookupKey(atom, [atom.name[1]], CARBON_NUMBER) == "C" + [atom.name[1]] + "2";
      assert "C" + [atom.name[1]] + "2" == ['C', atom.name[1], '2'];
    }
    if atom.element == NITROGEN {
      assert LookupKey(atom, "", NITROGEN6_NUMBER) == "N" + "" + "4" == "N4";
      assert LookupKey(atom, "", NITROGEN3_NUMBER) == "N" + "" + "1" == "N1";
    }
  }

  /** `find_linking_pair`: the atom of the same chain stored under the
      linking key, `None` for an element without one. A key the chain does
      not hold is a `KeyError`. */
  function FindLinkingPair(atom: Atom): (r: Result<Option<Atom>>)
    reads atom.chain
    ensures r.Err? ==> r.error in {IndexError, UnboundLocalError, KeyError}
    ensures r == Ok(None) <==> LinkingKey(atom) == Ok(None)
    ensures r.Ok? && r.value.Some? ==> r.value.value in atom.chain.atoms.Values
  {
    var key :- LinkingKey(atom);
    if key.None? then Ok(None)
    else if key.value !in atom.chain.atoms then Err(KeyError)
    else Ok(Some(atom.chain.atoms[key.value]))
  }

  /** On a chain whose map is consistent, the linking partner lies on the
      atom's own chain and carries the key as its name. */
  lemma LinkingPartnerOnSameChain(atom: Atom)
    requires ChainValid(atom.chain)
    requires FindLinkingPair(atom).Ok? && FindLinkingPair(atom).value.Some?
    ensures var partner := FindLinkingPair(atom).value.value;
            partner.chain == atom.chain && LinkingKey(atom) == Ok(Some(partner.name))
  {
  }

  /** `get_linking_pairs`: the first atom with the second atom's partner and
      the second atom with the first atom's partner, both at distance 0. The
      partner of the first atom is looked up first; a missing partner
      (`None`) fails when the pair is built, as an `AttributeError`. */
  method GetLinkingPairs(pair: Pair) returns (r: Result<(Pair, Pair)>)
    ensures FindLinkingPair(pair.atom1).Err? ==> r == Err(FindLinkingPair(pair.atom1).error)
    ensures FindLinkingPair(pair.atom1).Ok? && FindLinkingPair(pair.atom2).Err? ==>
              r == Err(FindLinkingPair(pair.atom2).error)
    ensures FindLinkingPair(pair.atom1).Ok? && FindLinkingPair(pair.atom2).Ok?
            && (FindLinkingPair(pair.atom1).value.None? || FindLinkingPair(pair.atom2).value.None?) ==>
              r == Err(AttributeError)
    ensures r.Ok? <==>
              FindLinkingPair(pair.atom1).Ok? && FindLinkingPair(pair.atom1).value.Some?
              && FindLinkingPair(pair.atom2).Ok? && FindLinkingPair(pair.atom2).value.Some?
    ensures r.Ok? ==>
              var (pair1, pair2) := r.value;
              fresh(pair1) && fresh(pair2) && pair1 != pair2
              && pair1.atom1 == pair.atom1 && pair1.atom2 == FindLinkingPair(pair.atom2).value.value
              && pair2.atom1 == pair.atom2 && pair2.atom2 == FindLinkingPair(pair.atom1).value.value
              && pair1.distance == 0.0 && pair2.distance == 0.0
              && pair1.probability == 0.0 && pair2.probability == 0.0
    ensures r.Ok? && ChainValid(pair.atom1.chain) && ChainValid(pair.atom2.chain) ==>
              r.value.0.chain1 == pair.chain1 && r.value.0.chain2 == pair.chain2
              && r.value.1.chain1 == pair.chain2 && r.value.1.chain2 == pair.chain1
  {
    var atomA, atomB := pair.atom1, pair.atom2;
    var atomBPair :- FindLinkingPair(atomA);
    var atomAPair :- FindLinkingPair(atomB);
    if atomAPair.None? || atomBPair.None? {
      return Err(AttributeError);
    }
    if ChainValid(atomA.chain) {
      LinkingPartnerOnSameChain(atomA);
    }
    if ChainValid(atomB.chain) {
      LinkingPartnerOnSameChain(atomB);
    }
    var pair1 := new Pair(atomA, atomAPair.value, 0.0);
    var pair2 := new Pair(atomB, atomBPair.value, 0.0);
    return Ok((pair1, pair2));
  }

  /** `add_pair_pdb`: both linking pairs are recorded, in order, in the list
      of all pairs and in the list of surface pairs. A failed lookup leaves
      the structure as it was. */
  method AddPairPdb(pdb: Pdb, pair: Pair) returns (r: Outcome)
    modifies pdb
    ensures r.Err? ==> unchanged(pdb)
    ensures r.Err? ==> r.error in {IndexError, UnboundLocalError, KeyError, AttributeError}
    ensures r.Err? <==> !(FindLinkingPair(pair.atom1).Ok? && FindLinkingPair(pair.atom1).value.Some?
                          && FindLinkingPair(pair.atom2).Ok? && FindLinkingPair(pair.atom2).value.Some?)
    ensures r.Ok? ==>
              |pdb.bondedPairs| == |old(pdb.bondedPairs)| + 2
              && pdb.bondedPairs[..|old(pdb.bondedPairs)|] == old(pdb.bondedPairs)
              && pdb.bondedPairsSurface == old(pdb.bondedPairsSurface) + pdb.bondedPairs[|old(pdb.bondedPairs)|..]
    ensures r.Ok? ==>
              var n := |old(pdb.bondedPairs)|;
              pdb.bondedPairs[n].atom1 == pair.atom1
              && pdb.bondedPairs[n].atom2 == FindLinkingPair(pair.atom2).value.value
              && pdb.bondedPairs[n + 1].atom1 == pair.atom2
              && pdb.bondedPairs[n + 1].atom2 == FindLinkingPair(pair.atom1).value.value
              && fresh(pdb.bondedPairs[n]) && fresh(pdb.bondedPairs[n + 1])
    ensures pdb.bondedPairsCore == old(pdb.bondedPairsCore) && pdb.radicals == old(pdb.radicals)
    ensures pdb.atoms == old(pdb.atoms) && pdb.chains == old(pdb.chains)
  {
    var pairs :- GetLinkingPairs(pair);
    var (pair1, pair2) := pairs;
    pdb.AddBondedPair(pair1);
    pdb.AddBondedPair(pair2);
    pdb.AddSurfaceBondedPair(pair1);
    pdb.AddSurfaceBondedPair(pair2);
    assert pdb.bondedPairs[|old(pdb.bondedPairs)|..] == [pair1, pair2];
    return Ok(());
  }
}
