/** The greedy cross-link selection engine, `PredictBonds`
    (pair_prediction/tools/predict_bonds.py). The two subclasses differ only
    in their three overridden operations, so the engine carries its strategy
    as a value and dispatches on it. */
module PredictBonds {
  import opened Wrappers
  import opened Seqs
  import opened Molecule
  import opened Pairs
  import opened Validation
  import opened PdbStructure
  import opened Utils
  import opened Isolation
  import opened ProbabilityHeap
  import opened ReactiveInput
  import Polymerization
  import Cycloaddition

  /** `PredictBondsCore` or `PredictBondsSur`. */
  datatype Strategy = Core | Surface

  /** The loop goes on while the best candidate scores above this. */
  const SELECTION_THRESHOLD: real := 0.001

  /** A scored candidate that becomes a `Pair`: the query atom, its
      neighbour, their distance and the score. */
  datatype Candidate = Candidate(atom1: Atom, atom2: Atom, distance: real, probability: real)

  /** `set.add` in insertion order: a candidate whose distance is already
      present is not added. */
  function Dedupe(candidates: seq<Candidate>): seq<Candidate> {
    if candidates == [] then []
    else
      var init := Dedupe(candidates[..|candidates| - 1]);
      var last := candidates[|candidates| - 1];
      if HasDistance(init, last.distance) then init else init + [last]
  }

  predicate HasDistance(candidates: seq<Candidate>, distance: real) {
    exists i :: 0 <= i < |candidates| && candidates[i].distance == distance
  }

  /** What is left after deduplication are candidates of the input, no two at
      the same distance, and every distance of the input is represented. */
  lemma {:induction false} DedupeSpec(candidates: seq<Candidate>)
    ensures forall c :: c in Dedupe(candidates) ==> c in candidates
    ensures forall i, j :: 0 <= i < j < |Dedupe(candidates)| ==>
              Dedupe(candidates)[i].distance != Dedupe(candidates)[j].distance
    ensures forall c :: c in candidates ==> HasDistance(Dedupe(candidates), c.distance)
  {
    if candidates != [] {
      var prefix := candidates[..|candidates| - 1];
      var last := candidates[|candidates| - 1];
      DedupeSpec(prefix);
      var init := Dedupe(prefix);
      assert candidates == prefix + [last];
      if !HasDistance(init, last.distance) {
        var d := init + [last];
        forall c | c in candidates ensures HasDistance(d, c.distance) {
          if c in prefix {
            var i :| 0 <= i < |init| && init[i].distance == c.distance;
            assert d[i] == init[i];
          } else {
            assert d[|init|] == last;
          }
        }
      }
    }
  }

  /** The stored pairs are the candidates, one for one and in order. */
  predicate PairsMatch(pairs: seq<Pair>, candidates: seq<Candidate>)
    reads set p | p in pairs
  {
    |pairs| == |candidates|
    && forall i :: 0 <= i < |pairs| ==>
         pairs[i].atom1 == candidates[i].atom1 && pairs[i].atom2 == candidates[i].atom2
         && pairs[i].distance == candidates[i].distance && pairs[i].probability == candidates[i].probability
  }

  /** The atoms of some pairs. */
  function PairAtoms(pairs: seq<Pair>): set<Atom> {
    (set p | p in pairs :: p.atom1) + (set p | p in pairs :: p.atom2)
  }

  /** The chains of some pairs. */
  function PairChains(pairs: seq<Pair>): set<Chain> {
    (set p | p in pairs :: p.chain1) + (set p | p in pairs :: p.chain2)
  }

  /** A candidate with a bonded atom has probability 0, so it can never be
      selected. */
  predicate BondedScoreZero(pairs: seq<Pair>)
    reads (set p | p in pairs), PairAtoms(pairs)
  {
    forall p :: p in pairs && (p.atom1.isBondedExternal || p.atom2.isBondedExternal) ==> p.probability == 0.0
  }

  /** A candidate with a bonded atom has probability 0 unless it shares a
      chain number with `root`, whose atoms have just been bonded. */
  predicate BondedScoreZeroExcept(pairs: seq<Pair>, root: Pair)
    reads (set p | p in pairs), PairAtoms(pairs)
  {
    forall p :: p in pairs && (p.atom1.isBondedExternal || p.atom2.isBondedExternal) ==>
      p.probability == 0.0 || root.IsSameChain(p)
  }

  /** Both atoms of every committed pair are bonded. */
  predicate AllBonded(committed: seq<Pair>)
    reads PairAtoms(committed)
  {
    forall p :: p in committed ==> p.atom1.isBondedExternal && p.atom2.isBondedExternal
  }

  /** No atom is an endpoint of two committed pairs. */
  predicate NoAtomTwice(committed: seq<Pair>) {
    forall i, j :: 0 <= i < j < |committed| ==>
      committed[j].atom1 != committed[i].atom1 && committed[j].atom1 != committed[i].atom2
      && committed[j].atom2 != committed[i].atom1 && committed[j].atom2 != committed[i].atom2
  }

  class Engine {
    const strategy: Strategy
    const pdb: Pdb
    /** The structure's atoms when the engine was built. */
    const atoms: seq<Atom>
    /** The lines of the reactive-atom input file. */
    const reactiveInput: seq<string>
    const queryRadius: real
    const weight: real
    const potential: BondPotential
    var reactiveAtoms: seq<Atom>
    var potentialPairs: seq<Pair>
    var probabilityHeap: seq<Pair>
    /** The pairs selected so far, in selection order. */
    ghost var committed: seq<Pair>

    constructor(strategy: Strategy, pdb: Pdb, reactiveInput: seq<string>, queryRadius: real, weight: real,
                potential: BondPotential)
      ensures this.strategy == strategy && this.pdb == pdb && this.reactiveInput == reactiveInput
      ensures this.queryRadius == queryRadius && this.weight == weight && this.potential == potential
      ensures atoms == pdb.atoms
      ensures reactiveAtoms == [] && potentialPairs == [] && probabilityHeap == [] && committed == []
    {
      this.strategy, this.pdb, this.reactiveInput := strategy, pdb, reactiveInput;
      this.queryRadius, this.weight, this.potential := queryRadius, weight, potential;
      atoms := pdb.atoms;
      reactiveAtoms, potentialPairs, probabilityHeap := [], [], [];
      committed := [];
    }

    /** `calculate_bond_potential` of the engine's strategy. */
    function Score(atom1: Atom, atom2: Atom, atomsDist: real): real
      reads pdb, atom1, atom2, atom2.chain
    {
      match strategy
      case Core => Polymerization.CoreScore(pdb, potential, weight, atom1, atom2, atomsDist)
      case Surface => Cycloaddition.SurfaceScore(pdb, potential, weight, atom1, atom2, atomsDist)
    }

    /** Under both strategies a pair with a bonded atom scores 0, so a
        positive score means neither atom is bonded yet. */
    lemma BondedScoresZero(atom1: Atom, atom2: Atom, atomsDist: real)
      ensures AreAtomsBonded(atom1, atom2) ==> Score(atom1, atom2, atomsDist) == 0.0
      ensures Score(atom1, atom2, atomsDist) != 0.0 ==> !atom1.isBondedExternal && !atom2.isBondedExternal
    {
    }

    method CalculateBondPotential(atom1: Atom, atom2: Atom, atomsDist: real) returns (bondPot: real)
      ensures bondPot == Score(atom1, atom2, atomsDist)
    {
      match strategy
      case Core =>
        bondPot := Polymerization.CalculateBondPotential(pdb, potential, weight, atom1, atom2, atomsDist);
      case Surface =>
        bondPot := Cycloaddition.CalculateBondPotential(pdb, potential, weight, atom1, atom2, atomsDist);
    }

    /** `add_pair_pdb` of the engine's strategy. */
    method AddPairPdb(pair: Pair) returns (r: Outcome)
      modifies pdb
      ensures strategy == Core ==>
                r.Ok? && pdb.bondedPairs == old(pdb.bondedPairs) + [pair]
                && pdb.bondedPairsCore == old(pdb.bondedPairsCore) + [pair]
                && pdb.bondedPairsSurface == old(pdb.bondedPairsSurface)
      ensures strategy == Surface ==>
                pdb.bondedPairsCore == old(pdb.bondedPairsCore)
                && (r.Err? ==> unchanged(pdb))
                && (r.Err? <==> !(Cycloaddition.FindLinkingPair(pair.atom1).Ok? && Cycloaddition.FindLinkingPair(pair.atom1).value.Some?
                                  && Cycloaddition.FindLinkingPair(pair.atom2).Ok? && Cycloaddition.FindLinkingPair(pair.atom2).value.Some?))
                && SurfaceLog(old(pdb.bondedPairs), old(pdb.bondedPairsSurface), pdb.bondedPairs, pdb.bondedPairsSurface,
                              if r.Ok? then [pair] else [])
                && (r.Ok? ==> var n := |old(pdb.bondedPairs)|;
                              pdb.bondedPairs[n].atom2 == Cycloaddition.FindLinkingPair(pair.atom2).value.value
                              && pdb.bondedPairs[n + 1].atom2 == Cycloaddition.FindLinkingPair(pair.atom1).value.value)
      ensures r.Err? ==> r.error in {IndexError, KeyError, UnboundLocalError, AttributeError}
      ensures pdb.radicals == old(pdb.radicals) && pdb.atoms == old(pdb.atoms) && pdb.chains == old(pdb.chains)
    {
      match strategy
      case Core =>
        Polymerization.AddPairPdb(pdb, pair);
        r := Ok(());
      case Surface =>
        r := Cycloaddition.AddPairPdb(pdb, pair);
        ghost var n := |old(pdb.bondedPairs)|;
        if r.Ok? {
          assert pdb.bondedPairs[n + 2 * 0] == pdb.bondedPairs[n] && [pair][0] == pair;
        } else {
          assert pdb.bondedPairs[..n] == pdb.bondedPairs;
        }
    }

    /** `find_radicals` of the engine's strategy; the surface strategy's does
        nothing. */
    method FindRadicals(reactive: ReactiveDict) returns (r: Outcome)
      modifies pdb, Polymerization.AtomsOf(ChainEnds(pdb.bondedPairs))
      ensures strategy == Surface ==> r.Ok? && unchanged(pdb)
      ensures strategy == Core && r.Ok? ==>
                forall c :: c in Polymerization.DistinctChains(ChainEnds(old(pdb.bondedPairs))) ==>
                  Polymerization.ChainResolved(c, reactive)
      ensures strategy == Core ==>
                var views := old(Polymerization.Views(Polymerization.DistinctChains(ChainEnds(pdb.bondedPairs))));
                var sweep := Polymerization.ChainsSweep(views, reactive, old(Polymerization.PairedIn(Polymerization.ViewAtoms(views))),
                                                        old(Polymerization.BondedIn(Polymerization.ViewAtoms(views))));
                (r.Err? <==> sweep.error.Some?) && (r.Err? ==> r.error == sweep.error.value)
                && pdb.radicals == old(pdb.radicals) + sweep.radicals
      ensures r.Err? ==> r.error in {KeyError, IndexError}
      ensures forall a: Atom :: old(allocated(a)) ==>
                a.isBondedExternal == old(a.isBondedExternal) && (old(a.isPaired) ==> a.isPaired)
    {
      match strategy
      case Core =>
        r := Polymerization.FindRadicals(pdb, reactive);
      case Surface =>
        r := Ok(());
    }

    /** `init_reactive_atoms`: appends, in structure order, the atoms whose
        name is listed under the first three letters of their residue
        name. */
    method InitReactiveAtoms(reactive: ReactiveDict)
      modifies this
      ensures reactiveAtoms == old(reactiveAtoms) + Filter(atoms, (a: Atom) => IsReactive(reactive, a))
      ensures potentialPairs == old(potentialPairs) && probabilityHeap == old(probabilityHeap)
      ensures committed == old(committed)
    {
      for i := 0 to |atoms|
        invariant reactiveAtoms == old(reactiveAtoms) + Filter(atoms[..i], (a: Atom) => IsReactive(reactive, a))
        invariant potentialPairs == old(potentialPairs) && probabilityHeap == old(probabilityHeap)
        invariant committed == old(committed)
      {
        assert atoms[..i + 1][..i] == atoms[..i];
        if IsReactive(reactive, atoms[i]) {
          reactiveAtoms := reactiveAtoms + [atoms[i]];
        }
      }
      assert atoms[..|atoms|] == atoms;
    }

    /** `recal_probability_map`: every listed pair gets its current score; no
        other pair changes. */
    method RecalProbabilityMap(recalcPairs: seq<Pair>)
      modifies set p | p in recalcPairs
      ensures forall p :: p in recalcPairs ==> p.probability == Score(p.atom1, p.atom2, p.distance)
    {
      for i := 0 to |recalcPairs|
        invariant forall j :: 0 <= j < i ==>
                    recalcPairs[j].probability == Score(recalcPairs[j].atom1, recalcPairs[j].atom2, recalcPairs[j].distance)
      {
        var pair := recalcPairs[i];
        var newProbability := CalculateBondPotential(pair.atom1, pair.atom2, pair.distance);
        pair.SetProbability(newProbability);
      }
    }

    /** `init_prob_heap`: the candidates pushed one by one onto an empty
        heap. */
    method InitProbHeap() returns (heap: seq<Pair>)
      ensures heap == Heapify(potentialPairs)
      ensures multiset(heap) == multiset(potentialPairs) && RootMaximal(heap)
    {
      heap := [];
      for i := 0 to |potentialPairs|
        invariant heap == Heapify(potentialPairs[..i])
      {
        assert potentialPairs[..i + 1][..i] == potentialPairs[..i];
        heap := Push(heap, potentialPairs[i]);
      }
      assert potentialPairs[..|potentialPairs|] == potentialPairs;
      HeapifySpec(potentialPairs);
    }

    /** The heap holds exactly the candidates and its root scores highest. */
    predicate HeapMatches()
      reads this, set p | p in probabilityHeap
    {
      multiset(probabilityHeap) == multiset(potentialPairs) && RootMaximal(probabilityHeap)
    }

    /** `heapq.heappop` followed by `potential_pairs.remove`: a pair of
        highest probability leaves both the heap and the candidate list, and
        nothing else does. */
    method PopRoot() returns (rootPair: Pair)
      requires probabilityHeap != [] && HeapMatches() && DistinctDistances(potentialPairs)
      modifies this
      ensures rootPair == old(probabilityHeap[0]) && rootPair in old(potentialPairs)
      ensures forall p :: p in old(potentialPairs) ==> p.probability <= rootPair.probability
      ensures multiset(potentialPairs) == multiset(old(potentialPairs)) - multiset{rootPair}
      ensures rootPair !in potentialPairs && |potentialPairs| == |old(potentialPairs)| - 1
      ensures forall p :: p in potentialPairs ==> p in old(potentialPairs)
      ensures HeapMatches() && DistinctDistances(potentialPairs)
      ensures reactiveAtoms == old(reactiveAtoms) && committed == old(committed)
    {
      var heap, pairs := probabilityHeap, potentialPairs;
      rootPair := heap[0];
      PopFacts(heap, pairs);
      probabilityHeap, potentialPairs := PopRest(heap), Remove(pairs, rootPair).value;
    }

    /** `PopRoot`, seen from the committed pairs and the zero-score
        property: popping touches no atom, so both carry over. */
    method PopBest() returns (rootPair: Pair)
      requires probabilityHeap != [] && HeapMatches() && DistinctDistances(potentialPairs)
      modifies this
      ensures rootPair == old(probabilityHeap[0]) && rootPair in old(potentialPairs)
      ensures forall p :: p in old(potentialPairs) ==> p.probability <= rootPair.probability
      ensures multiset(potentialPairs) == multiset(old(potentialPairs)) - multiset{rootPair}
      ensures rootPair !in potentialPairs
      ensures HeapMatches() && DistinctDistances(potentialPairs)
      ensures reactiveAtoms == old(reactiveAtoms) && committed == old(committed)
      ensures old(AllBonded(committed)) ==> AllBonded(committed)
      ensures old(BondedScoreZero(potentialPairs)) ==> BondedScoreZero(potentialPairs)
    {
      rootPair := PopRoot();
      assert old(AllBonded(committed)) ==> AllBonded(committed) by {
        if old(AllBonded(committed)) {
          forall p | p in committed ensures p.atom1.isBondedExternal && p.atom2.isBondedExternal {
            assert old(p.atom1.isBondedExternal && p.atom2.isBondedExternal);
          }
        }
      }
      assert old(BondedScoreZero(potentialPairs)) ==> BondedScoreZero(potentialPairs) by {
        if old(BondedScoreZero(potentialPairs)) {
          forall p | p in potentialPairs && (p.atom1.isBondedExternal || p.atom2.isBondedExternal)
            ensures p.probability == 0.0
          {
            assert p in old(potentialPairs);
          }
        }
      }
    }

    /** `select_highest_probability_pair`: pops the root, removes it from the
        candidates and commits it. */
    method SelectHighestProbabilityPair() returns (rootPair: Pair)
      requires probabilityHeap != [] && HeapMatches() && DistinctDistances(potentialPairs)
      modifies this, probabilityHeap[0].atom1, probabilityHeap[0].atom2,
               probabilityHeap[0].chain1, probabilityHeap[0].chain2
      ensures rootPair == old(probabilityHeap[0]) && rootPair in old(potentialPairs)
      ensures forall p :: p in old(potentialPairs) ==> p.probability <= rootPair.probability
      ensures multiset(potentialPairs) == multiset(old(potentialPairs)) - multiset{rootPair}
      ensures rootPair !in potentialPairs
      ensures HeapMatches() && DistinctDistances(potentialPairs)
      ensures committed == old(committed) + [rootPair]
      ensures rootPair.atom1.isBondedExternal && rootPair.atom2.isBondedExternal
      ensures reactiveAtoms == old(reactiveAtoms)
      ensures old(AllBonded(committed)) ==> AllBonded(committed)
      ensures old(BondedScoreZero(potentialPairs)) ==> BondedScoreZeroExcept(potentialPairs, rootPair)
    {
      rootPair := PopBest();
      CommitPair(rootPair, potentialPairs, committed);
      committed := committed + [rootPair];
    }

    /** `bond_pair` on the popped pair. Only the pair's two atoms change
        flag, so a candidate with a bonded atom that does not share a chain
        number with it was bonded before. */
    method CommitPair(rootPair: Pair, ghost pairs: seq<Pair>, ghost done: seq<Pair>)
      modifies rootPair.atom1, rootPair.atom2, rootPair.chain1, rootPair.chain2
      ensures rootPair.atom1.isBondedExternal && rootPair.atom2.isBondedExternal
      ensures old(AllBonded(done)) ==> AllBonded(done + [rootPair])
      ensures old(BondedScoreZero(pairs)) ==> BondedScoreZeroExcept(pairs, rootPair)
    {
      rootPair.BondPair();
      if old(AllBonded(done)) {
        forall p | p in done + [rootPair] ensures p.atom1.isBondedExternal && p.atom2.isBondedExternal {
          if p != rootPair {
            assert old(p.atom1.isBondedExternal && p.atom2.isBondedExternal);
          }
        }
      }
      if old(BondedScoreZero(pairs)) {
        forall p | p in pairs && (p.atom1.isBondedExternal || p.atom2.isBondedExternal)
          ensures p.probability == 0.0 || rootPair.IsSameChain(p)
        {
          if !rootPair.IsSameChain(p) {
            assert p.atom1 != rootPair.atom1 && p.atom1 != rootPair.atom2;
            assert p.atom2 != rootPair.atom1 && p.atom2 != rootPair.atom2;
            assert old(p.atom1.isBondedExternal || p.atom2.isBondedExternal);
          }
        }
      }
    }

    /** The scored candidates of one query row, in row order: the query atom
        with each listed neighbour that scores above 0. */
    function RowCandidates(atom1: Atom, row: seq<int>, dists: seq<real>): seq<Candidate>
      requires |row| <= |dists| && forall k :: 0 <= k < |row| ==> 0 <= row[k] < |reactiveAtoms|
      reads this, pdb, atom1, (set a | a in reactiveAtoms), (set a | a in reactiveAtoms :: a.chain)
    {
      if row == [] then []
      else
        var n := |row| - 1;
        var init := RowCandidates(atom1, row[..n], dists);
        var atom2 := reactiveAtoms[row[n]];
        var probability := Score(atom1, atom2, dists[n]);
        if probability > 0.0 then init + [Candidate(atom1, atom2, dists[n], probability)] else init
    }

    /** The scored candidates of all query rows, row after row. */
    function AllCandidates(indices: seq<seq<int>>, distances: seq<seq<real>>): seq<Candidate>
      requires WellShaped(indices, distances, |reactiveAtoms|)
      reads this, pdb, (set a | a in reactiveAtoms), (set a | a in reactiveAtoms :: a.chain)
    {
      if indices == [] then []
      else
        var n := |indices| - 1;
        assert WellShaped(indices[..n], distances, |reactiveAtoms|) by {
          assert forall q :: 0 <= q < n ==> indices[..n][q] == indices[q];
        }
        AllCandidates(indices[..n], distances) + RowCandidates(reactiveAtoms[n], indices[n], distances[n])
    }

    /** Every candidate of a row is a reactive pair whose stored score is its
        current, positive score. */
    lemma {:induction false} RowCandidatesScored(atom1: Atom, row: seq<int>, dists: seq<real>)
      requires |row| <= |dists| && forall k :: 0 <= k < |row| ==> 0 <= row[k] < |reactiveAtoms|
      ensures forall c :: c in RowCandidates(atom1, row, dists) ==>
                c.atom1 == atom1 && c.atom2 in reactiveAtoms
                && c.probability > 0.0 && c.probability == Score(c.atom1, c.atom2, c.distance)
    {
      if row != [] {
        RowCandidatesScored(atom1, row[..|row| - 1], dists);
      }
    }

    /** Every candidate is a pair of reactive atoms whose stored score is its
        current, positive score. */
    lemma {:induction false} AllCandidatesScored(indices: seq<seq<int>>, distances: seq<seq<real>>)
      requires WellShaped(indices, distances, |reactiveAtoms|)
      ensures forall c :: c in AllCandidates(indices, distances) ==>
                c.atom1 in reactiveAtoms && c.atom2 in reactiveAtoms
                && c.probability > 0.0 && c.probability == Score(c.atom1, c.atom2, c.distance)
    {
      if indices != [] {
        var n := |indices| - 1;
        assert WellShaped(indices[..n], distances, |reactiveAtoms|) by {
          assert forall q :: 0 <= q < n ==> indices[..n][q] == indices[q];
        }
        AllCandidatesScored(indices[..n], distances);
        RowCandidatesScored(reactiveAtoms[n], indices[n], distances[n]);
      }
    }

    /** Every listed neighbour that scores above 0 is a candidate of its row. */
    lemma {:induction false} RowCandidatesComplete(atom1: Atom, row: seq<int>, dists: seq<real>, k: nat)
      requires |row| <= |dists| && forall k :: 0 <= k < |row| ==> 0 <= row[k] < |reactiveAtoms|
      requires k < |row| && Score(atom1, reactiveAtoms[row[k]], dists[k]) > 0.0
      ensures Candidate(atom1, reactiveAtoms[row[k]], dists[k], Score(atom1, reactiveAtoms[row[k]], dists[k]))
              in RowCandidates(atom1, row, dists)
    {
      if k < |row| - 1 {
        RowCandidatesComplete(atom1, row[..|row| - 1], dists, k);
      }
    }

    /** Every neighbour in the query result that scores above 0 is a
        candidate. */
    lemma {:induction false} AllCandidatesComplete(indices: seq<seq<int>>, distances: seq<seq<real>>, q: nat, k: nat)
      requires WellShaped(indices, distances, |reactiveAtoms|)
      requires q < |indices| && k < |indices[q]|
      requires Score(reactiveAtoms[q], reactiveAtoms[indices[q][k]], distances[q][k]) > 0.0
      ensures Candidate(reactiveAtoms[q], reactiveAtoms[indices[q][k]], distances[q][k],
                        Score(reactiveAtoms[q], reactiveAtoms[indices[q][k]], distances[q][k]))
              in AllCandidates(indices, distances)
    {
      var n := |indices| - 1;
      if q < n {
        assert WellShaped(indices[..n], distances, |reactiveAtoms|) by {
          assert forall q :: 0 <= q < n ==> indices[..n][q] == indices[q];
        }
        assert indices[..n][q] == indices[q];
        AllCandidatesComplete(indices[..n], distances, q, k);
      } else {
        RowCandidatesComplete(reactiveAtoms[q], indices[q], distances[q], k);
      }
    }

    /** `initialize_potential_pairs`: one new pair per candidate, kept in a set
        under `Pair.__eq__`, so a candidate at a distance already held is
        dropped. The set's iteration order is taken to be insertion order. */
    method InitializePotentialPairs(indices: seq<seq<int>>, distances: seq<seq<real>>) returns (pairs: seq<Pair>)
      requires WellShaped(indices, distances, |reactiveAtoms|)
      ensures PairsMatch(pairs, Dedupe(AllCandidates(indices, distances)))
      ensures forall p :: p in pairs ==> fresh(p)
      ensures DistinctDistances(pairs)
      ensures forall p :: p in pairs ==>
                p.atom1 in reactiveAtoms && p.atom2 in reactiveAtoms
                && p.probability > 0.0 && p.probability == Score(p.atom1, p.atom2, p.distance)
    {
      pairs := [];
      for q := 0 to |indices|
        invariant WellShaped(indices[..q], distances, |reactiveAtoms|)
        invariant forall p :: p in pairs ==> fresh(p)
        invariant PairsMatch(pairs, Dedupe(old(AllCandidates(indices[..q], distances))))
      {
        assert indices[..q + 1][..q] == indices[..q];
        ghost var done := old(AllCandidates(indices[..q], distances));
        pairs := AddRowPairs(pairs, reactiveAtoms[q], indices[q], distances[q], done);
        assert old(AllCandidates(indices[..q + 1], distances))
               == done + old(RowCandidates(reactiveAtoms[q], indices[q], distances[q]));
      }
      assert indices[..|indices|] == indices;
      assert AllCandidates(indices, distances) == old(AllCandidates(indices, distances));
      CandidatePairs(pairs, indices, distances);
    }

    /** The inner loop of `initialize_potential_pairs` over one query row.
        It changes no existing object, so the candidates are those of the
        state it starts in. */
    method AddRowPairs(pairs0: seq<Pair>, currentAtom: Atom, row: seq<int>, dists: seq<real>,
                       ghost done: seq<Candidate>) returns (pairs: seq<Pair>)
      requires |row| <= |dists| && forall k :: 0 <= k < |row| ==> 0 <= row[k] < |reactiveAtoms|
      requires PairsMatch(pairs0, Dedupe(done))
      ensures PairsMatch(pairs, Dedupe(done + old(RowCandidates(currentAtom, row, dists))))
      ensures forall p :: p in pairs ==> p in pairs0 || fresh(p)
    {
      pairs := pairs0;
      assert row[..0] == [] && done + old(RowCandidates(currentAtom, row[..0], dists)) == done;
      for k := 0 to |row|
        invariant forall p :: p in pairs ==> p in pairs0 || fresh(p)
        invariant PairsMatch(pairs, Dedupe(done + old(RowCandidates(currentAtom, row[..k], dists))))
      {
        pairs := AddRowPair(pairs, currentAtom, row, dists, k, done);
      }
      assert row[..|row|] == row;
    }

    /** One turn of the inner loop: the `k`-th neighbour of the row is
        scored, and added as a pair when its score is positive. */
    method AddRowPair(pairs0: seq<Pair>, currentAtom: Atom, row: seq<int>, dists: seq<real>, k: nat,
                      ghost done: seq<Candidate>) returns (pairs: seq<Pair>)
      requires k < |row| <= |dists| && forall k :: 0 <= k < |row| ==> 0 <= row[k] < |reactiveAtoms|
      requires PairsMatch(pairs0, Dedupe(done + RowCandidates(currentAtom, row[..k], dists)))
      ensures PairsMatch(pairs, Dedupe(done + old(RowCandidates(currentAtom, row[..k + 1], dists))))
      ensures forall p :: p in pairs ==> p in pairs0 || fresh(p)
    {
      assert row[..k + 1][..k] == row[..k];
      ghost var before := done + RowCandidates(currentAtom, row[..k], dists);
      ghost var after := done + RowCandidates(currentAtom, row[..k + 1], dists);
      var curNnAtom := reactiveAtoms[row[k]];
      var pairDistance := dists[k];
      var probabilityOfPair := CalculateBondPotential(currentAtom, curNnAtom, pairDistance);
      assert probabilityOfPair == Score(currentAtom, curNnAtom, pairDistance);
      if probabilityOfPair > 0.0 {
        assert after == before + [Candidate(currentAtom, curNnAtom, pairDistance, probabilityOfPair)];
        assert after[..|after| - 1] == before;
        pairs := AddPair(pairs0, currentAtom, curNnAtom, pairDistance, probabilityOfPair, before);
      } else {
        assert after == before;
        pairs := pairs0;
      }
    }

    /** One `set.add` of a new pair: it is added unless a pair at the same
        distance is already held. */
    method AddPair(pairs0: seq<Pair>, atom1: Atom, atom2: Atom, distance: real, probability: real,
                   ghost before: seq<Candidate>) returns (pairs: seq<Pair>)
      requires PairsMatch(pairs0, Dedupe(before))
      ensures PairsMatch(pairs, Dedupe(before + [Candidate(atom1, atom2, distance, probability)]))
      ensures forall p :: p in pairs ==> p in pairs0 || fresh(p)
    {
      ghost var after := before + [Candidate(atom1, atom2, distance, probability)];
      assert after[..|after| - 1] == before;
      var bondedPair := new Pair(atom1, atom2, distance);
      bondedPair.SetProbability(probability);
      pairs := pairs0;
      if !(exists i :: 0 <= i < |pairs| && pairs[i].distance == distance) {
        pairs := pairs + [bondedPair];
      } else {
        var i :| 0 <= i < |pairs| && pairs[i].distance == distance;
        assert Dedupe(before)[i].distance == distance;
      }
    }

    /** Pairs built from the deduplicated candidates have distinct distances
        and carry their current, positive scores. */
    lemma CandidatePairs(pairs: seq<Pair>, indices: seq<seq<int>>, distances: seq<seq<real>>)
      requires WellShaped(indices, distances, |reactiveAtoms|)
      requires PairsMatch(pairs, Dedupe(AllCandidates(indices, distances)))
      ensures DistinctDistances(pairs)
      ensures forall p :: p in pairs ==>
                p.atom1 in reactiveAtoms && p.atom2 in reactiveAtoms
                && p.probability > 0.0 && p.probability == Score(p.atom1, p.atom2, p.distance)
    {
      var candidates := AllCandidates(indices, distances);
      DedupeSpec(candidates);
      AllCandidatesScored(indices, distances);
      forall i, j | 0 <= i < j < |pairs| ensures !pairs[i].Equals(pairs[j]) {
        assert Dedupe(candidates)[i].distance != Dedupe(candidates)[j].distance;
      }
      forall p | p in pairs
        ensures p.atom1 in reactiveAtoms && p.atom2 in reactiveAtoms
                && p.probability > 0.0 && p.probability == Score(p.atom1, p.atom2, p.distance)
      {
        var i :| 0 <= i < |pairs| && pairs[i] == p;
        assert Dedupe(candidates)[i] in candidates;
      }
    }

    /** `bond_selection_loop`: rounds go on while the best remaining candidate
        scores above the threshold. The loop test reads the heap's root, so a
        heap that runs empty ends the loop with an `IndexError`; an error of
        `add_pair_pdb` ends it too. When the loop ends normally every
        remaining candidate scores at most the threshold. The pairs committed
        are candidates, each scored above the threshold, and no atom is an
        endpoint of two of them; `rounds` records, round by round, the
        scores of the candidates left, and each committed pair scored highest
        among them. */
    method BondSelectionLoop() returns (r: Outcome, ghost taken: seq<Pair>, ghost rounds: seq<map<Pair, real>>)
      requires HeapMatches() && DistinctDistances(potentialPairs)
      requires BondedScoreZero(potentialPairs) && AllBonded(committed) && NoAtomTwice(committed)
      modifies this, pdb, (set p | p in potentialPairs), PairAtoms(potentialPairs), PairChains(potentialPairs)
      ensures r.Ok? ==> probabilityHeap != [] && forall p :: p in potentialPairs ==> p.probability <= SELECTION_THRESHOLD
      ensures r.Err? ==> r.error in {IndexError, KeyError, UnboundLocalError, AttributeError}
      ensures strategy == Core && r.Err? ==> r.error == IndexError && potentialPairs == []
      ensures committed == old(committed) + taken
      ensures AllBonded(committed) && NoAtomTwice(committed)
      ensures multiset(potentialPairs) == multiset(old(potentialPairs)) - multiset(taken)
      ensures forall p :: p in taken ==> p in old(potentialPairs) && p !in potentialPairs && p.probability > SELECTION_THRESHOLD
      ensures strategy == Core ==>
                pdb.bondedPairs == old(pdb.bondedPairs) + taken && pdb.bondedPairsCore == old(pdb.bondedPairsCore) + taken
      ensures strategy == Surface ==>
                SurfaceLog(old(pdb.bondedPairs), old(pdb.bondedPairsSurface), pdb.bondedPairs, pdb.bondedPairsSurface, taken)
                || (r.Err? && taken != []
                    && SurfaceLog(old(pdb.bondedPairs), old(pdb.bondedPairsSurface), pdb.bondedPairs, pdb.bondedPairsSurface,
                                  taken[..|taken| - 1]))
      ensures GreedyRounds(old(potentialPairs), taken, rounds)
    {
      ghost var logged;
      r, taken, logged, rounds := SelectionRounds();
      ProgressFacts(old(potentialPairs), old(committed), old(pdb.bondedPairs), old(pdb.bondedPairsCore),
                    old(pdb.bondedPairsSurface), taken, logged, rounds);
      if r.Err? {
        return;
      }
      if probabilityHeap == [] {
        r := Err(IndexError);
        return;
      }
      RootIsBest();
    }

    /** The rounds of `bond_selection_loop`, run while the heap's root scores
        above the threshold or until a round fails; `logged` is what the
        surface strategy recorded: all of `taken`, or all but a last pair
        whose lookup failed. */
    method SelectionRounds() returns (r: Outcome, ghost taken: seq<Pair>, ghost logged: seq<Pair>,
                                      ghost rounds: seq<map<Pair, real>>)
      requires HeapMatches() && DistinctDistances(potentialPairs)
      requires BondedScoreZero(potentialPairs) && AllBonded(committed) && NoAtomTwice(committed)
      modifies this, pdb, (set p | p in potentialPairs), PairAtoms(potentialPairs), PairChains(potentialPairs)
      ensures HeapMatches() && AllBonded(committed) && NoAtomTwice(committed)
      ensures r.Ok? ==> !(probabilityHeap != [] && probabilityHeap[0].probability > SELECTION_THRESHOLD)
      ensures r.Err? ==> r.error in {IndexError, KeyError, UnboundLocalError, AttributeError}
      ensures strategy == Core ==> r.Ok?
      ensures logged == taken || (r.Err? && taken != [] && logged == taken[..|taken| - 1])
      ensures Progress(old(potentialPairs), old(committed), old(pdb.bondedPairs), old(pdb.bondedPairsCore),
                       old(pdb.bondedPairsSurface), taken, logged, rounds)
    {
      taken, rounds := [], [];
      r := Ok(());
      assert pdb.bondedPairs[..|pdb.bondedPairs|] == pdb.bondedPairs;
      logged := taken;
      while probabilityHeap != [] && probabilityHeap[0].probability > SELECTION_THRESHOLD
        invariant r.Ok? && HeapMatches() && DistinctDistances(potentialPairs)
        invariant BondedScoreZero(potentialPairs) && AllBonded(committed) && NoAtomTwice(committed)
        invariant forall p :: p in potentialPairs ==> p in old(potentialPairs)
        invariant logged == taken
        invariant Progress(old(potentialPairs), old(committed), old(pdb.bondedPairs), old(pdb.bondedPairsCore),
                           old(pdb.bondedPairsSurface), taken, logged, rounds)
        decreases |potentialPairs|
      {
        FrameShrinks(potentialPairs, old(potentialPairs));
        ghost var taken0 := taken;
        r, taken, rounds := GreedyRound(old(potentialPairs), old(committed), old(pdb.bondedPairs), old(pdb.bondedPairsCore),
                                        old(pdb.bondedPairsSurface), taken, rounds);
        if r.Err? {
          logged := taken0;
          assert taken[..|taken| - 1] == taken0;
          break;
        }
        logged := taken;
      }
    }

    /** The current score of each candidate. */
    ghost function Scores(): map<Pair, real>
      reads this, set p | p in potentialPairs
    {
      map p | p in potentialPairs :: p.probability
    }

    /** The scores of the candidates at the start of a round, with the root
        of the heap among them scoring highest. */
    ghost method Snapshot(initial: seq<Pair>, taken: seq<Pair>) returns (scores: map<Pair, real>)
      requires probabilityHeap != [] && HeapMatches()
      requires multiset(potentialPairs) == multiset(initial) - multiset(taken)
      requires forall p :: p in taken ==> p !in potentialPairs
      ensures scores == Scores() && probabilityHeap[0] in scores
      ensures forall p :: p in scores ==> scores[p] <= scores[probabilityHeap[0]]
      ensures scores.Keys == Left(initial, taken)
    {
      scores := Scores();
      RootIsBest();
      assert probabilityHeap[0] in multiset(potentialPairs);
      Remaining(potentialPairs, initial, taken);
    }

    /** One pass of the loop body, stated as the loop's bookkeeping: the pairs
        committed since the loop began (`taken`) grow by the selected pair,
        which leaves the candidates, and the structure's lists grow with it. */
    method SelectionRound(ghost initial: seq<Pair>, ghost committed0: seq<Pair>, ghost bonded0: seq<Pair>,
                          ghost core0: seq<Pair>, ghost taken0: seq<Pair>)
      returns (r: Outcome, ghost taken: seq<Pair>)
      requires probabilityHeap != [] && probabilityHeap[0].probability > SELECTION_THRESHOLD
      requires HeapMatches() && DistinctDistances(potentialPairs)
      requires BondedScoreZero(potentialPairs) && AllBonded(committed) && NoAtomTwice(committed)
      requires committed == committed0 + taken0
      requires forall p :: p in potentialPairs ==> p in initial
      requires multiset(potentialPairs) == multiset(initial) - multiset(taken0)
      requires forall p :: p in taken0 ==> p in initial && p !in potentialPairs && p.probability > SELECTION_THRESHOLD
      requires strategy == Core ==> pdb.bondedPairs == bonded0 + taken0 && pdb.bondedPairsCore == core0 + taken0
      modifies this, pdb, (set p | p in potentialPairs), PairAtoms(potentialPairs), PairChains(potentialPairs)
      ensures |potentialPairs| < old(|potentialPairs|)
      ensures HeapMatches() && DistinctDistances(potentialPairs)
      ensures r.Ok? ==> BondedScoreZero(potentialPairs)
      ensures AllBonded(committed) && NoAtomTwice(committed)
      ensures committed == committed0 + taken && |taken| == |taken0| + 1 && taken[..|taken0|] == taken0
      ensures taken[|taken0|] == old(probabilityHeap[0])
      ensures forall p :: p in potentialPairs ==> p in initial
      ensures multiset(potentialPairs) == multiset(initial) - multiset(taken)
      ensures forall p :: p in taken ==> p in initial && p !in potentialPairs && p.probability > SELECTION_THRESHOLD
      ensures strategy == Core ==> r.Ok? && pdb.bondedPairs == bonded0 + taken && pdb.bondedPairsCore == core0 + taken
      ensures strategy == Surface ==>
                SurfaceLog(old(pdb.bondedPairs), old(pdb.bondedPairsSurface), pdb.bondedPairs, pdb.bondedPairsSurface,
                           if r.Ok? then [taken[|taken0|]] else [])
      ensures r.Err? ==> r.error in {IndexError, KeyError, UnboundLocalError, AttributeError}
    {
      assert probabilityHeap[0] in multiset(potentialPairs);
      ghost var before, candidates := committed, potentialPairs;
      r := SelectionStep();
      ghost var root := committed[|before|];
      RemovedOne(potentialPairs, candidates, root);
      RemovedTail(potentialPairs, candidates, initial, taken0, root);
      Appended(committed, before);
      taken := taken0 + [root];
      assert taken[|taken0|] == root;
      AppendAssoc(committed0, taken0, [root]);
      if strategy == Core {
        AppendAssoc(bonded0, taken0, [root]);
        AppendAssoc(core0, taken0, [root]);
      }
      forall p | p in taken0 ensures p.probability > SELECTION_THRESHOLD {
        assert p !in candidates;
      }
    }

    /** What the selection loop has done since it began with the candidates
        `initial`, the committed pairs `committed0` and the structure's lists
        `bonded0`, `core0` and `surface0`: it committed `taken`, which left
        the candidates, each scoring above the threshold; the core strategy
        recorded all of them and the surface strategy the linking pairs of
        `logged`; and `rounds` is the greedy record of the rounds. */
    ghost predicate Progress(initial: seq<Pair>, committed0: seq<Pair>, bonded0: seq<Pair>, core0: seq<Pair>,
                             surface0: seq<Pair>, taken: seq<Pair>, logged: seq<Pair>, rounds: seq<map<Pair, real>>)
      reads this, pdb, set p | p in taken
    {
      committed == committed0 + taken
      && multiset(potentialPairs) == multiset(initial) - multiset(taken)
      && (forall p :: p in taken ==> p in initial && p !in potentialPairs && p.probability > SELECTION_THRESHOLD)
      && (strategy == Core ==> pdb.bondedPairs == bonded0 + taken && pdb.bondedPairsCore == core0 + taken)
      && (strategy == Surface ==> SurfaceLog(bonded0, surface0, pdb.bondedPairs, pdb.bondedPairsSurface, logged))
      && GreedyRounds(initial, taken, rounds)
    }

    /** The facts `Progress` bundles, one by one. */
    lemma ProgressFacts(initial: seq<Pair>, committed0: seq<Pair>, bonded0: seq<Pair>, core0: seq<Pair>,
                        surface0: seq<Pair>, taken: seq<Pair>, logged: seq<Pair>, rounds: seq<map<Pair, real>>)
      requires Progress(initial, committed0, bonded0, core0, surface0, taken, logged, rounds)
      ensures committed == committed0 + taken
      ensures multiset(potentialPairs) == multiset(initial) - multiset(taken)
      ensures forall p :: p in taken ==> p in initial && p !in potentialPairs && p.probability > SELECTION_THRESHOLD
      ensures strategy == Core ==> pdb.bondedPairs == bonded0 + taken && pdb.bondedPairsCore == core0 + taken
      ensures strategy == Surface ==> SurfaceLog(bonded0, surface0, pdb.bondedPairs, pdb.bondedPairsSurface, logged)
      ensures GreedyRounds(initial, taken, rounds)
    {
    }

    /** `SelectionRound`, keeping the record of the scores each round chose
        from (`rounds`): the pair committed this round scored highest among
        the candidates left at its start. */
    method GreedyRound(ghost initial: seq<Pair>, ghost committed0: seq<Pair>, ghost bonded0: seq<Pair>,
                       ghost core0: seq<Pair>, ghost surface0: seq<Pair>,
                       ghost taken0: seq<Pair>, ghost rounds0: seq<map<Pair, real>>)
      returns (r: Outcome, ghost taken: seq<Pair>, ghost rounds: seq<map<Pair, real>>)
      requires probabilityHeap != [] && probabilityHeap[0].probability > SELECTION_THRESHOLD
      requires HeapMatches() && DistinctDistances(potentialPairs)
      requires BondedScoreZero(potentialPairs) && AllBonded(committed) && NoAtomTwice(committed)
      requires forall p :: p in potentialPairs ==> p in initial
      requires Progress(initial, committed0, bonded0, core0, surface0, taken0, taken0, rounds0)
      modifies this, pdb, (set p | p in potentialPairs), PairAtoms(potentialPairs), PairChains(potentialPairs)
      ensures |potentialPairs| < old(|potentialPairs|)
      ensures HeapMatches() && DistinctDistances(potentialPairs)
      ensures r.Ok? ==> BondedScoreZero(potentialPairs)
      ensures AllBonded(committed) && NoAtomTwice(committed)
      ensures forall p :: p in potentialPairs ==> p in initial
      ensures |taken| == |taken0| + 1 && taken[..|taken0|] == taken0
      ensures Progress(initial, committed0, bonded0, core0, surface0, taken, if r.Ok? then taken else taken0, rounds)
      ensures r.Err? ==> r.error in {IndexError, KeyError, UnboundLocalError, AttributeError}
      ensures strategy == Core ==> r.Ok?
    {
      ghost var scores := Snapshot(initial, taken0);
      ghost var bonded1, surface1 := pdb.bondedPairs, pdb.bondedPairsSurface;
      r, taken := SelectionRound(initial, committed0, bonded0, core0, taken0);
      GreedyRoundsStep(initial, taken0, rounds0, taken[|taken0|], scores);
      Appended(taken, taken0);
      if strategy == Surface {
        SurfaceLogStep(bonded0, surface0, bonded1, surface1, pdb.bondedPairs, pdb.bondedPairsSurface,
                       taken0, taken[|taken0|], r.Ok?);
      }
      rounds := rounds0 + [scores];
    }

    /** One round of `bond_selection_loop`: the best candidate is committed and
        recorded, then the remaining candidates are rescored. */
    method SelectionStep() returns (r: Outcome)
      requires probabilityHeap != [] && probabilityHeap[0].probability > SELECTION_THRESHOLD
      requires HeapMatches() && DistinctDistances(potentialPairs)
      requires BondedScoreZero(potentialPairs) && AllBonded(committed) && NoAtomTwice(committed)
      modifies this, pdb, (set p | p in potentialPairs), PairAtoms(potentialPairs), PairChains(potentialPairs)
      ensures |committed| == |old(committed)| + 1 && committed[..|old(committed)|] == old(committed)
      ensures var root := committed[|old(committed)|];
              root == old(probabilityHeap[0]) && root.probability > SELECTION_THRESHOLD
              && old(forall p :: p in potentialPairs ==> p.probability <= probabilityHeap[0].probability)
              && multiset(potentialPairs) == multiset(old(potentialPairs)) - multiset{root}
              && root !in potentialPairs
      ensures HeapMatches() && DistinctDistances(potentialPairs)
      ensures AllBonded(committed) && NoAtomTwice(committed)
      ensures r.Ok? ==> BondedScoreZero(potentialPairs)
      ensures strategy == Core ==>
                r.Ok? && pdb.bondedPairs == old(pdb.bondedPairs) + [committed[|old(committed)|]]
                && pdb.bondedPairsCore == old(pdb.bondedPairsCore) + [committed[|old(committed)|]]
      ensures strategy == Surface ==>
                SurfaceLog(old(pdb.bondedPairs), old(pdb.bondedPairsSurface), pdb.bondedPairs, pdb.bondedPairsSurface,
                           if r.Ok? then [committed[|old(committed)|]] else [])
      ensures r.Err? ==> r.error in {IndexError, KeyError, UnboundLocalError, AttributeError}
      ensures reactiveAtoms == old(reactiveAtoms)
    {
      assert probabilityHeap[0] in multiset(potentialPairs);
      var selectedPair;
      selectedPair, r := SelectAndRecord();
      RemovedOne(potentialPairs, old(potentialPairs), selectedPair);
      if r.Err? {
        return;
      }
      Rescore(selectedPair);
    }

    /** The first half of a round: `select_highest_probability_pair` and
        `add_pair_pdb`. */
    method SelectAndRecord() returns (selectedPair: Pair, r: Outcome)
      requires probabilityHeap != [] && probabilityHeap[0].probability > SELECTION_THRESHOLD
      requires HeapMatches() && DistinctDistances(potentialPairs)
      requires BondedScoreZero(potentialPairs) && AllBonded(committed) && NoAtomTwice(committed)
      modifies this, pdb, PairAtoms(potentialPairs), PairChains(potentialPairs)
      ensures committed == old(committed) + [selectedPair]
      ensures selectedPair == old(probabilityHeap[0])
      ensures forall p :: p in old(potentialPairs) ==> p.probability <= selectedPair.probability
      ensures multiset(potentialPairs) == multiset(old(potentialPairs)) - multiset{selectedPair}
      ensures selectedPair !in potentialPairs
      ensures HeapMatches() && DistinctDistances(potentialPairs)
      ensures AllBonded(committed) && NoAtomTwice(committed)
      ensures r.Ok? ==> BondedScoreZeroExcept(potentialPairs, selectedPair)
      ensures strategy == Core ==>
                r.Ok? && pdb.bondedPairs == old(pdb.bondedPairs) + [selectedPair]
                && pdb.bondedPairsCore == old(pdb.bondedPairsCore) + [selectedPair]
      ensures strategy == Surface ==>
                SurfaceLog(old(pdb.bondedPairs), old(pdb.bondedPairsSurface), pdb.bondedPairs, pdb.bondedPairsSurface,
                           if r.Ok? then [selectedPair] else [])
      ensures r.Err? ==> r.error in {IndexError, KeyError, UnboundLocalError, AttributeError}
      ensures reactiveAtoms == old(reactiveAtoms)
    {
      ghost var root := probabilityHeap[0];
      assert root in multiset(potentialPairs);
      assert root.atom1 in PairAtoms(potentialPairs) && root.atom2 in PairAtoms(potentialPairs);
      assert root.chain1 in PairChains(potentialPairs) && root.chain2 in PairChains(potentialPairs);
      RootIsBest();
      FirstCommitOfAtoms(committed, root);
      selectedPair := SelectHighestProbabilityPair();
      r := RecordPair(selectedPair);
    }

    /** `add_pair_pdb` touches the structure only, so whatever holds of the
        engine's candidates, heap and committed pairs still holds after it. */
    method RecordPair(pair: Pair) returns (r: Outcome)
      modifies pdb
      ensures strategy == Core ==>
                r.Ok? && pdb.bondedPairs == old(pdb.bondedPairs) + [pair]
                && pdb.bondedPairsCore == old(pdb.bondedPairsCore) + [pair]
      ensures strategy == Surface ==>
                SurfaceLog(old(pdb.bondedPairs), old(pdb.bondedPairsSurface), pdb.bondedPairs, pdb.bondedPairsSurface,
                           if r.Ok? then [pair] else [])
      ensures r.Err? ==> r.error in {IndexError, KeyError, UnboundLocalError, AttributeError}
      ensures old(HeapMatches()) ==> HeapMatches()
      ensures old(AllBonded(committed)) ==> AllBonded(committed)
      ensures old(BondedScoreZeroExcept(potentialPairs, pair)) ==> BondedScoreZeroExcept(potentialPairs, pair)
    {
      r := AddPairPdb(pair);
    }

    /** The root of a matching heap scores at least as high as every
        candidate, and a root above the threshold has no bonded atom. */
    lemma RootIsBest()
      requires probabilityHeap != [] && HeapMatches()
      ensures forall p :: p in potentialPairs ==> p.probability <= probabilityHeap[0].probability
      ensures BondedScoreZero(potentialPairs) && probabilityHeap[0].probability > 0.0 ==>
                !probabilityHeap[0].atom1.isBondedExternal && !probabilityHeap[0].atom2.isBondedExternal
    {
      forall p | p in potentialPairs ensures p.probability <= probabilityHeap[0].probability {
        assert p in multiset(probabilityHeap);
      }
      assert probabilityHeap[0] in multiset(potentialPairs);
    }

    /** The rescoring half of a round (`get_chain_branching_pairs`,
        `recal_probability_map` and the conditional `init_prob_heap`): every
        candidate sharing a chain number with the committed pair gets its
        current score, so no candidate with a bonded atom keeps a positive
        probability. */
    method Rescore(root: Pair)
      requires HeapMatches() && BondedScoreZeroExcept(potentialPairs, root)
      modifies this`probabilityHeap, set p | p in potentialPairs
      ensures potentialPairs == old(potentialPairs) && committed == old(committed)
      ensures Filter(potentialPairs, (p: Pair) => root.IsSameChain(p)) != [] ==> probabilityHeap == Heapify(potentialPairs)
      ensures Filter(potentialPairs, (p: Pair) => root.IsSameChain(p)) == [] ==> probabilityHeap == old(probabilityHeap)
      ensures HeapMatches() && BondedScoreZero(potentialPairs)
      ensures reactiveAtoms == old(reactiveAtoms)
      ensures old(AllBonded(committed)) ==> AllBonded(committed)
    {
      var pairsToRecalculate := RescoreBranching(root);
      RebuildIfRescored(|pairsToRecalculate|);
    }

    /** `self.probability_heap = self.init_prob_heap()`. */
    /** The last step of a round: the heap is rebuilt only when some
        candidate was rescored; the scores and bonded flags stay as they are. */
    method RebuildIfRescored(rescored: nat)
      requires rescored == 0 ==> HeapMatches()
      requires BondedScoreZero(potentialPairs)
      modifies this`probabilityHeap
      ensures rescored > 0 ==> probabilityHeap == Heapify(potentialPairs)
      ensures rescored == 0 ==> probabilityHeap == old(probabilityHeap)
      ensures HeapMatches() && BondedScoreZero(potentialPairs)
      ensures old(AllBonded(committed)) ==> AllBonded(committed)
    {
      if rescored > 0 {
        RebuildHeap();
      }
    }

    method RebuildHeap()
      modifies this`probabilityHeap
      ensures probabilityHeap == Heapify(potentialPairs) && HeapMatches()
    {
      probabilityHeap := InitProbHeap();
    }

    /** `get_chain_branching_pairs` and `recal_probability_map` on the
        candidates: exactly the candidates sharing a chain number with the
        committed pair get their current score. */
    method RescoreBranching(root: Pair) returns (pairsToRecalculate: seq<Pair>)
      requires HeapMatches() && BondedScoreZeroExcept(potentialPairs, root)
      modifies set p | p in potentialPairs
      ensures pairsToRecalculate == Filter(potentialPairs, (p: Pair) => root.IsSameChain(p))
      ensures forall p {:trigger p.probability} :: p in potentialPairs ==>
                p.probability == if root.IsSameChain(p) then old(Score(p.atom1, p.atom2, p.distance)) else old(p.probability)
      ensures pairsToRecalculate == [] ==> HeapMatches()
      ensures BondedScoreZero(potentialPairs)
      ensures old(AllBonded(committed)) ==> AllBonded(committed)
    {
      pairsToRecalculate := root.GetChainBranchingPairs(potentialPairs);
      RecalProbabilityMap(pairsToRecalculate);
      forall p | p in potentialPairs && (p.atom1.isBondedExternal || p.atom2.isBondedExternal)
        ensures p.probability == 0.0
      {
        if root.IsSameChain(p) {
          assert p in pairsToRecalculate;
          BondedScoresZero(p.atom1, p.atom2, p.distance);
        } else {
          assert p !in pairsToRecalculate;
        }
      }
      assert old(AllBonded(committed)) ==> AllBonded(committed) by {
        if old(AllBonded(committed)) {
          forall p | p in committed ensures p.atom1.isBondedExternal && p.atom2.isBondedExternal {
            assert old(p.atom1.isBondedExternal && p.atom2.isBondedExternal);
          }
        }
      }
    }
  }

  /** The atoms and chains of fewer pairs are fewer. */
  lemma FrameShrinks(pairs: seq<Pair>, bigger: seq<Pair>)
    requires forall p :: p in pairs ==> p in bigger
    ensures PairAtoms(pairs) <= PairAtoms(bigger) && PairChains(pairs) <= PairChains(bigger)
  {
  }

  /** A list one longer than its prefix `before` is `before` and its last element. */
  lemma Appended(committed: seq<Pair>, before: seq<Pair>)
    requires |committed| == |before| + 1 && committed[..|before|] == before
    ensures committed == before + [committed[|before|]]
  {
    assert committed == committed[..|before|] + [committed[|before|]];
  }

  /** `bonded` and `surface` extend `bonded0` and `surface0` by the linking
      pairs the surface strategy records for `pairs`, in order: each pair
      adds to both lists a pair from its first atom, then one from its
      second atom. */
  ghost predicate SurfaceLog(bonded0: seq<Pair>, surface0: seq<Pair>, bonded: seq<Pair>, surface: seq<Pair>,
                             pairs: seq<Pair>)
  {
    |bonded| == |bonded0| + 2 * |pairs| && bonded[..|bonded0|] == bonded0
    && surface == surface0 + bonded[|bonded0|..]
    && forall k :: 0 <= k < |pairs| ==>
         bonded[|bonded0| + 2 * k].atom1 == pairs[k].atom1 && bonded[|bonded0| + 2 * k + 1].atom1 == pairs[k].atom2
  }

  /** A round that records `pair` when `ok`, and nothing otherwise, extends
      the surface records accordingly. */
  lemma SurfaceLogStep(bonded0: seq<Pair>, surface0: seq<Pair>, bonded1: seq<Pair>, surface1: seq<Pair>,
                       bonded2: seq<Pair>, surface2: seq<Pair>, pairs: seq<Pair>, pair: Pair, ok: bool)
    requires SurfaceLog(bonded0, surface0, bonded1, surface1, pairs)
    requires SurfaceLog(bonded1, surface1, bonded2, surface2, if ok then [pair] else [])
    ensures SurfaceLog(bonded0, surface0, bonded2, surface2, if ok then pairs + [pair] else pairs)
  {
    if ok {
      SurfaceLogAppend(bonded0, surface0, bonded1, surface1, bonded2, surface2, pairs, pair);
    } else {
      assert bonded2 == bonded2[..|bonded1|];
    }
  }

  /** Two stretches of surface records make one, their pairs in order. */
  lemma SurfaceLogAppend(bonded0: seq<Pair>, surface0: seq<Pair>, bonded1: seq<Pair>, surface1: seq<Pair>,
                         bonded2: seq<Pair>, surface2: seq<Pair>, pairs: seq<Pair>, pair: Pair)
    requires SurfaceLog(bonded0, surface0, bonded1, surface1, pairs)
    requires SurfaceLog(bonded1, surface1, bonded2, surface2, [pair])
    ensures SurfaceLog(bonded0, surface0, bonded2, surface2, pairs + [pair])
  {
    var n0, n1 := |bonded0|, |bonded1|;
    assert bonded2[..n0] == bonded2[..n1][..n0];
    assert bonded2[n0..] == bonded2[n0..n1] + bonded2[n1..];
    assert bonded2[n0..n1] == bonded1[n0..];
    assert surface2 == surface0 + bonded1[n0..] + bonded2[n1..];
    forall k | 0 <= k < |pairs + [pair]|
      ensures bonded2[n0 + 2 * k].atom1 == (pairs + [pair])[k].atom1
      ensures bonded2[n0 + 2 * k + 1].atom1 == (pairs + [pair])[k].atom2
    {
      if k < |pairs| {
        assert bonded2[n0 + 2 * k] == bonded1[n0 + 2 * k];
        assert bonded2[n0 + 2 * k + 1] == bonded1[n0 + 2 * k + 1];
      } else {
        assert n0 + 2 * k == n1 + 2 * 0;
      }
    }
  }

  /** `rounds[i]` holds the scores of the candidates left at the start of
      round `i`, which are the initial candidates not committed before it,
      and the pair committed in round `i` scores highest among them: the
      selection is greedy. */
  ghost predicate GreedyRounds(initial: seq<Pair>, taken: seq<Pair>, rounds: seq<map<Pair, real>>)
  {
    |rounds| == |taken|
    && forall i :: 0 <= i < |taken| ==>
         taken[i] in rounds[i]
         && (forall p :: p in rounds[i] ==> rounds[i][p] <= rounds[i][taken[i]])
         && rounds[i].Keys == Left(initial, taken[..i])
  }

  /** The candidates of `initial` not yet committed in `taken`. */
  ghost function Left(initial: seq<Pair>, taken: seq<Pair>): (left: set<Pair>)
    ensures forall p :: p in left ==> p in initial && p !in taken
    ensures forall p :: p in initial && p !in taken ==> p in left
  {
    set p | p in initial && p !in taken
  }

  /** A round that commits the best of the candidates left extends the
      greedy record by one round. */
  lemma GreedyRoundsStep(initial: seq<Pair>, taken: seq<Pair>, rounds: seq<map<Pair, real>>, pair: Pair,
                         scores: map<Pair, real>)
    requires GreedyRounds(initial, taken, rounds)
    requires pair in scores && forall p :: p in scores ==> scores[p] <= scores[pair]
    requires scores.Keys == Left(initial, taken)
    ensures GreedyRounds(initial, taken + [pair], rounds + [scores])
  {
    var taken', rounds' := taken + [pair], rounds + [scores];
    forall i | 0 <= i < |taken'|
      ensures taken'[i] in rounds'[i]
      ensures forall p :: p in rounds'[i] ==> rounds'[i][p] <= rounds'[i][taken'[i]]
      ensures rounds'[i].Keys == Left(initial, taken'[..i])
    {
      if i < |taken| {
        assert taken'[i] == taken[i] && rounds'[i] == rounds[i] && taken'[..i] == taken[..i];
      } else {
        assert taken'[..i] == taken;
      }
    }
  }

  /** With the committed pairs subtracted, a pair is left exactly when it was
      a candidate and has not been committed. */
  lemma Remaining(pairs: seq<Pair>, initial: seq<Pair>, taken: seq<Pair>)
    requires multiset(pairs) == multiset(initial) - multiset(taken)
    requires forall p :: p in taken ==> p !in pairs
    ensures forall p :: p in pairs <==> p in initial && p !in taken
  {
    forall p | p in initial && p !in taken ensures p in pairs {
      assert multiset(initial)[p] >= 1 && multiset(taken)[p] == 0;
      assert multiset(pairs)[p] >= 1;
    }
    forall p | p in pairs ensures p in initial {
      assert multiset(initial)[p] >= multiset(pairs)[p];
    }
  }

  /** Removing one more pair from the candidates removes it from what is left. */
  lemma RemovedTail(rest: seq<Pair>, pairs: seq<Pair>, initial: seq<Pair>, taken: seq<Pair>, pair: Pair)
    requires multiset(pairs) == multiset(initial) - multiset(taken)
    requires multiset(rest) == multiset(pairs) - multiset{pair}
    requires pair in pairs
    ensures multiset(rest) == multiset(initial) - multiset(taken + [pair])
  {
  }

  /** A pop of a heap that matches the candidate list, followed by removing
      the popped pair from the list, leaves a matching heap and list. */
  lemma PopFacts(heap: seq<Pair>, pairs: seq<Pair>)
    requires heap != [] && multiset(heap) == multiset(pairs) && RootMaximal(heap) && DistinctDistances(pairs)
    ensures heap[0] in pairs && Remove(pairs, heap[0]).Ok?
    ensures forall p :: p in pairs ==> p.probability <= heap[0].probability
    ensures var rest := Remove(pairs, heap[0]).value;
            multiset(rest) == multiset(pairs) - multiset{heap[0]}
            && heap[0] !in rest && |rest| == |pairs| - 1
            && (forall p :: p in rest ==> p in pairs)
            && multiset(PopRest(heap)) == multiset(rest) && RootMaximal(PopRest(heap))
            && DistinctDistances(rest)
  {
    assert heap[0] in multiset(pairs);
    forall p | p in pairs ensures p.probability <= heap[0].probability {
      assert p in multiset(heap);
    }
    PopSpec(heap);
    RemoveMember(pairs, heap[0]);
    RemovedOne(Remove(pairs, heap[0]).value, pairs, heap[0]);
  }

  /** A list that is another minus one of its members holds only members of
      the other and is one shorter. */
  lemma RemovedOne(rest: seq<Pair>, pairs: seq<Pair>, pair: Pair)
    requires pair in pairs && multiset(rest) == multiset(pairs) - multiset{pair}
    ensures forall p :: p in rest ==> p in pairs
    ensures |rest| == |pairs| - 1
  {
    forall p | p in rest ensures p in pairs {
      assert p in multiset(rest);
    }
    assert |multiset(rest)| == |multiset(pairs)| - 1;
  }

  /** An atom that is not bonded yet is not an endpoint of any committed
      pair, so committing a pair of such atoms keeps every atom in at most
      one committed pair. */
  lemma FirstCommitOfAtoms(committed: seq<Pair>, root: Pair)
    requires AllBonded(committed) && NoAtomTwice(committed)
    requires !root.atom1.isBondedExternal && !root.atom2.isBondedExternal
    ensures NoAtomTwice(committed + [root])
  {
    var c := committed + [root];
    forall i, j | 0 <= i < j < |c|
      ensures c[j].atom1 != c[i].atom1 && c[j].atom1 != c[i].atom2
              && c[j].atom2 != c[i].atom1 && c[j].atom2 != c[i].atom2
    {
      assert c[i] == committed[i];
      if j < |committed| {
        assert c[j] == committed[j];
      } else {
        assert c[i] in committed;
      }
    }
  }
}
