/** The core cross-linking strategy, `PredictBondsCore`
    (pair_prediction/predict_polymerization.py): core validity as the gate of
    the score, the core-pair list as the source of isolatedness, the record
    of a committed pair, and radical assignment on the chains that took part
    in a cross-link. */
module Polymerization {
  import opened Wrappers
  import opened Molecule
  import opened Pairs
  import opened Validation
  import opened PdbStructure
  import opened Utils
  import opened Isolation

  /** `calculate_bond_potential`: 0 for a pair that is not core-valid, the
      bond potential otherwise. */
  function CoreScore(pdb: Pdb, potential: BondPotential, weight: real, atom1: Atom, atom2: Atom, atomsDist: real): real
    reads pdb, atom1, atom2, atom2.chain
  {
    if !IsValidCorePair(atom1, atom2) then 0.0
    else potential(atomsDist, IDEAL_BOND_DIST, BOND_DIST_STD * BOND_DIST_STD, weight,
                   Isolatedness(pdb.bondedPairsCore), MAX_CONNECTIVITY)
  }

  method CalculateBondPotential(pdb: Pdb, potential: BondPotential, weight: real,
                                atom1: Atom, atom2: Atom, atomsDist: real) returns (bondPot: real)
    ensures bondPot == CoreScore(pdb, potential, weight, atom1, atom2, atomsDist)
  {
    if !IsValidCorePair(atom1, atom2) {
      return 0.0;
    }
    var isolatedness := ComputeIsolatedness(pdb.bondedPairsCore);
    bondPot := potential(atomsDist, IDEAL_BOND_DIST, BOND_DIST_STD * BOND_DIST_STD, weight,
                         isolatedness, MAX_CONNECTIVITY);
  }

  /** The isolatedness is taken from the last committed core pair, so two
      valid candidates at the same distance score the same whatever their
      chains. */
  lemma CoreScoreIgnoresCandidateChains(pdb: Pdb, potential: BondPotential, weight: real,
                                        a1: Atom, a2: Atom, b1: Atom, b2: Atom, atomsDist: real)
    requires IsValidCorePair(a1, a2) && IsValidCorePair(b1, b2)
    ensures CoreScore(pdb, potential, weight, a1, a2, atomsDist) == CoreScore(pdb, potential, weight, b1, b2, atomsDist)
  {
  }

  /** `add_pair_pdb`: the pair is recorded in the list of all pairs and in the
      list of core pairs. */
  method AddPairPdb(pdb: Pdb, pair: Pair)
    modifies pdb
    ensures pdb.bondedPairs == old(pdb.bondedPairs) + [pair]
    ensures pdb.bondedPairsCore == old(pdb.bondedPairsCore) + [pair]
    ensures pdb.bondedPairsSurface == old(pdb.bondedPairsSurface) && pdb.radicals == old(pdb.radicals)
    ensures pdb.atoms == old(pdb.atoms) && pdb.chains == old(pdb.chains)
  {
    pdb.AddBondedPair(pair);
    pdb.AddCoreBondedPair(pair);
  }

  /** A (distance, atom) entry of `atom_distances`. */
  type Ranked = (real, Atom)

  /** Inserts `x` before the first entry of `s` whose distance is not smaller. */
  function InsertByKey(x: Ranked, s: seq<Ranked>): (r: seq<Ranked>)
    ensures |r| == |s| + 1
  {
    if s == [] || x.0 <= s[0].0 then [x] + s
    else [s[0]] + InsertByKey(x, s[1..])
  }

  /** `list.sort(key=lambda x: x[0])`, a stable sort: each entry is inserted
      ahead of the later entries with the same distance. */
  function SortByKey(s: seq<Ranked>): (r: seq<Ranked>)
    ensures |r| == |s|
  {
    if s == [] then []
    else InsertByKey(s[0], SortByKey(s[1..]))
  }

  /** Insertion keeps the entries and adds one. */
  lemma {:induction false} InsertByKeyPermutes(x: Ranked, s: seq<Ranked>)
    ensures multiset(InsertByKey(x, s)) == multiset(s) + multiset{x}
  {
    if s != [] && x.0 > s[0].0 {
      assert s == [s[0]] + s[1..];
      InsertByKeyPermutes(x, s[1..]);
    }
  }

  /** The sort is a permutation of its input. */
  lemma {:induction false} SortByKeyPermutes(s: seq<Ranked>)
    ensures multiset(SortByKey(s)) == multiset(s)
  {
    if s != [] {
      assert s == [s[0]] + s[1..];
      SortByKeyPermutes(s[1..]);
      InsertByKeyPermutes(s[0], SortByKey(s[1..]));
    }
  }

  predicate SortedByKey(s: seq<Ranked>) {
    forall i, j :: 0 <= i < j < |s| ==> s[i].0 <= s[j].0
  }

  lemma {:induction false} InsertByKeySorted(x: Ranked, s: seq<Ranked>)
    requires SortedByKey(s)
    ensures SortedByKey(InsertByKey(x, s))
  {
    if s != [] && x.0 > s[0].0 {
      InsertByKeySorted(x, s[1..]);
      var r := InsertByKey(x, s[1..]);
      InsertByKeyPermutes(x, s[1..]);
      assert multiset(r) == multiset(s[1..]) + multiset{x};
      forall k | 0 <= k < |r| ensures s[0].0 <= r[k].0 {
        assert r[k] in multiset(r);
        if r[k] != x {
          assert r[k] in multiset(s[1..]);
          var m :| 0 <= m < |s[1..]| && s[1..][m] == r[k];
          assert s[1 + m] == r[k];
        }
      }
    }
  }

  /** The sort orders the entries by distance. */
  lemma {:induction false} SortByKeySorted(s: seq<Ranked>)
    ensures SortedByKey(SortByKey(s))
  {
    if s != [] {
      SortByKeySorted(s[1..]);
      InsertByKeySorted(s[0], SortByKey(s[1..]));
    }
  }

  /** The entries of `s` at distance `d`, in their order in `s`. */
  function AtDistance(d: real, s: seq<Ranked>): (r: seq<Ranked>)
    ensures forall i :: 0 <= i < |r| ==> r[i].0 == d
  {
    if s == [] then []
    else (if s[0].0 == d then [s[0]] else []) + AtDistance(d, s[1..])
  }

  /** Insertion places `x` ahead of every entry with its distance and leaves
      the order of the others alone. */
  lemma {:induction false} InsertByKeyStable(d: real, x: Ranked, s: seq<Ranked>)
    ensures AtDistance(d, InsertByKey(x, s))
            == (if x.0 == d then [x] else []) + AtDistance(d, s)
  {
    if s == [] || x.0 <= s[0].0 {
      assert ([x] + s)[1..] == s;
    } else {
      var r := InsertByKey(x, s[1..]);
      InsertByKeyStable(d, x, s[1..]);
      assert ([s[0]] + r)[1..] == r;
    }
  }

  /** `list.sort` is stable: the entries at any one distance keep their input
      order, so which entry lands at rank 1 among equally distant atoms is
      fixed by the order of `atoms`. */
  lemma {:induction false} SortByKeyStable(d: real, s: seq<Ranked>)
    ensures AtDistance(d, SortByKey(s)) == AtDistance(d, s)
  {
    if s != [] {
      SortByKeyStable(d, s[1..]);
      InsertByKeyStable(d, s[0], SortByKey(s[1..]));
    }
  }

  /** The atoms of `atoms` not in `paired`, each with its distance from
      `cur`, in list order; `paired` stands for the atoms whose `is_paired`
      flag is set. */
  function UnpairedDistances(cur: Atom, atoms: seq<Atom>, paired: set<Atom>): (ds: seq<Ranked>)
    ensures |ds| <= |atoms|
    ensures forall i :: 0 <= i < |ds| ==>
              ds[i].1 in atoms && ds[i].1 !in paired && ds[i].0 == SquaredDistance(cur, ds[i].1)
  {
    if atoms == [] then []
    else
      var init := UnpairedDistances(cur, atoms[..|atoms| - 1], paired);
      var atom := atoms[|atoms| - 1];
      if atom in paired then init else init + [(SquaredDistance(cur, atom), atom)]
  }

  /** The atoms of a list whose `is_paired` flag is set. */
  function PairedOf(atoms: seq<Atom>): set<Atom>
    reads atoms
  {
    set a | a in atoms && a.isPaired
  }

  /** The atoms of a list whose `is_bonded_external` flag is set. */
  function BondedOf(atoms: seq<Atom>): set<Atom>
    reads atoms
  {
    set a | a in atoms && a.isBondedExternal
  }

  /** The atoms of a set whose `is_paired` flag is set. */
  function PairedIn(s: set<Atom>): set<Atom>
    reads s
  {
    set a | a in s && a.isPaired
  }

  /** The atoms of a set whose `is_bonded_external` flag is set. */
  function BondedIn(s: set<Atom>): set<Atom>
    reads s
  {
    set a | a in s && a.isBondedExternal
  }

  /** Only the flags of the listed atoms matter to the distances. */
  lemma {:induction false} UnpairedDistancesLocal(cur: Atom, atoms: seq<Atom>, paired1: set<Atom>, paired2: set<Atom>)
    requires forall a :: a in atoms ==> (a in paired1 <==> a in paired2)
    ensures UnpairedDistances(cur, atoms, paired1) == UnpairedDistances(cur, atoms, paired2)
  {
    if atoms != [] {
      UnpairedDistancesLocal(cur, atoms[..|atoms| - 1], paired1, paired2);
    }
  }

  /** The inner loop of `assign_radical` and the pick of `atom_distances[1]`:
      the entry at rank 1 of the distance-sorted unpaired atoms. */
  method SecondNearest(cur: Atom, atoms: seq<Atom>) returns (r: Result<Atom>)
    ensures var ds := UnpairedDistances(cur, atoms, PairedOf(atoms));
            |ds| < 2 ==> r == Err(IndexError)
    ensures var ds := UnpairedDistances(cur, atoms, PairedOf(atoms));
            |ds| >= 2 ==> r == Ok(SortByKey(ds)[1].1)
  {
    ghost var paired := PairedOf(atoms);
    var atomDistances: seq<Ranked> := [];
    for i := 0 to |atoms|
      invariant atomDistances == UnpairedDistances(cur, atoms[..i], paired)
    {
      assert atoms[..i + 1][..i] == atoms[..i];
      assert atoms[i] in paired <==> atoms[i].isPaired;
      if !atoms[i].isPaired {
        var distance := SquaredDistance(cur, atoms[i]);
        atomDistances := atomDistances + [(distance, atoms[i])];
      }
    }
    assert atoms[..|atoms|] == atoms;
    var sorted := SortByKey(atomDistances);
    if |sorted| < 2 {
      return Err(IndexError);
    }
    return Ok(sorted[1].1);
  }

  /** The partner `assign_radical` pairs an atom with is one of the atoms,
      and not yet paired. */
  lemma SecondNearestMember(cur: Atom, atoms: seq<Atom>, paired: set<Atom>)
    requires |UnpairedDistances(cur, atoms, paired)| >= 2
    ensures |SortByKey(UnpairedDistances(cur, atoms, paired))| >= 2
    ensures SortByKey(UnpairedDistances(cur, atoms, paired))[1].1 in atoms
    ensures SortByKey(UnpairedDistances(cur, atoms, paired))[1].1 !in paired
  {
    SecondNearestIsNearestOther(cur, atoms, paired);
  }

  /** The rank-1 partner is an unpaired atom of the list, no nearer than the
      rank-0 entry and no farther than any other entry. */
  lemma SecondNearestIsNearestOther(cur: Atom, atoms: seq<Atom>, paired: set<Atom>)
    requires |UnpairedDistances(cur, atoms, paired)| >= 2
    ensures var sorted := SortByKey(UnpairedDistances(cur, atoms, paired));
            |sorted| == |UnpairedDistances(cur, atoms, paired)|
            && sorted[1].1 in atoms && sorted[1].1 !in paired
            && sorted[1].0 == SquaredDistance(cur, sorted[1].1)
            && sorted[0].0 <= sorted[1].0
            && forall j :: 1 <= j < |sorted| ==> sorted[1].0 <= sorted[j].0
  {
    var ds := UnpairedDistances(cur, atoms, paired);
    var sorted := SortByKey(ds);
    SortByKeySorted(ds);
    SortByKeyPermutes(ds);
    assert sorted[1] in multiset(ds);
    var m :| 0 <= m < |ds| && ds[m] == sorted[1];
  }

  /** One pass of the outer loop of `assign_radical`: the atom and the
      partner it is paired with. */
  datatype Pass = Pass(cur: Atom, partner: Atom)

  /** The passes the outer loop makes, and whether it stopped on an
      `IndexError`. */
  datatype Run = Run(passes: seq<Pass>, failed: bool)

  /** The outer loop of `assign_radical` from position `i` on, on values,
      with `paired` standing for the `is_paired` flags. An atom already
      paired is skipped. Otherwise its partner is the rank-1 entry of the
      unpaired atoms sorted by distance, and both become paired; fewer than
      two unpaired atoms stop the loop with an `IndexError`. */
  function Passes(atoms: seq<Atom>, i: nat, paired: set<Atom>): Run
    decreases |atoms| - i
  {
    if i >= |atoms| then Run([], false)
    else if atoms[i] in paired then Passes(atoms, i + 1, paired)
    else
      var sorted := SortByKey(UnpairedDistances(atoms[i], atoms, paired));
      if |sorted| < 2 then Run([], true)
      else
        var partner := sorted[1].1;
        var rest := Passes(atoms, i + 1, paired + {atoms[i], partner});
        Run([Pass(atoms[i], partner)] + rest.passes, rest.failed)
  }

  /** The atoms a list of passes pairs. */
  function PassAtoms(passes: seq<Pass>): set<Atom> {
    if passes == [] then {}
    else PassAtoms(passes[..|passes| - 1]) + {passes[|passes| - 1].cur, passes[|passes| - 1].partner}
  }

  /** An atom is paired by a list of passes exactly when it is one of the two
      atoms of one of them. */
  lemma {:induction false} PassAtomsMembers(passes: seq<Pass>)
    ensures forall j :: 0 <= j < |passes| ==> passes[j].cur in PassAtoms(passes) && passes[j].partner in PassAtoms(passes)
    ensures forall x :: x in PassAtoms(passes) ==> exists j :: 0 <= j < |passes| && (x == passes[j].cur || x == passes[j].partner)
  {
    if passes != [] {
      var init := passes[..|passes| - 1];
      PassAtomsMembers(init);
      assert forall j :: 0 <= j < |init| ==> init[j] == passes[j];
    }
  }

  /** A pass put in front adds its two atoms to those the passes pair. */
  lemma {:induction false} PassAtomsCons(pass: Pass, rest: seq<Pass>)
    ensures PassAtoms([pass] + rest) == {pass.cur, pass.partner} + PassAtoms(rest)
  {
    if rest == [] {
      assert [pass] + rest == [pass];
      assert [pass][..0] == [];
    } else {
      var init := rest[..|rest| - 1];
      PassAtomsCons(pass, init);
      assert ([pass] + rest)[..|rest|] == [pass] + init;
    }
  }

  /** `assign_radical`'s rule for one pass, with `bonded` standing for the
      `is_bonded_external` flags: when exactly one of the two atoms is
      externally bonded, the other one is a radical. */
  function PassRadicals(pass: Pass, bonded: set<Atom>): seq<Atom> {
    if pass.cur in bonded && pass.partner !in bonded then [pass.partner]
    else if pass.cur !in bonded && pass.partner in bonded then [pass.cur]
    else []
  }

  /** The radicals a list of passes records, in pass order. */
  function RadicalsOf(passes: seq<Pass>, bonded: set<Atom>): seq<Atom> {
    if passes == [] then []
    else RadicalsOf(passes[..|passes| - 1], bonded) + PassRadicals(passes[|passes| - 1], bonded)
  }

  /** `x` is the unbonded atom of a pass whose other atom is bonded. */
  predicate RadicalOfPass(x: Atom, pass: Pass, bonded: set<Atom>) {
    x !in bonded
    && ((x == pass.partner && pass.cur in bonded) || (x == pass.cur && pass.partner in bonded))
  }

  /** Every recorded radical is unbonded, and the other atom of its pass is
      externally bonded. */
  lemma {:induction false} RadicalsOfSound(passes: seq<Pass>, bonded: set<Atom>)
    ensures forall x :: x in RadicalsOf(passes, bonded) ==>
              exists j :: 0 <= j < |passes| && RadicalOfPass(x, passes[j], bonded)
  {
    if passes != [] {
      var init := passes[..|passes| - 1];
      var last := passes[|passes| - 1];
      RadicalsOfSound(init, bonded);
      forall x | x in RadicalsOf(passes, bonded)
        ensures exists j :: 0 <= j < |passes| && RadicalOfPass(x, passes[j], bonded)
      {
        if x in RadicalsOf(init, bonded) {
          var j :| 0 <= j < |init| && RadicalOfPass(x, init[j], bonded);
          assert passes[j] == init[j];
        } else {
          assert RadicalOfPass(x, passes[|passes| - 1], bonded);
        }
      }
    }
  }

  /** Every pass with exactly one externally bonded atom records the other
      one as a radical. */
  lemma {:induction false} RadicalsOfComplete(passes: seq<Pass>, bonded: set<Atom>)
    ensures forall j :: 0 <= j < |passes| && (passes[j].cur in bonded) != (passes[j].partner in bonded) ==>
              (if passes[j].cur in bonded then passes[j].partner else passes[j].cur) in RadicalsOf(passes, bonded)
  {
    if passes != [] {
      var init := passes[..|passes| - 1];
      RadicalsOfComplete(init, bonded);
      forall j | 0 <= j < |init| ensures passes[j] == init[j] { }
    }
  }

  lemma {:induction false} RadicalsOfSnoc(passes: seq<Pass>, pass: Pass, bonded: set<Atom>)
    ensures RadicalsOf(passes + [pass], bonded) == RadicalsOf(passes, bonded) + PassRadicals(pass, bonded)
  {
    assert (passes + [pass])[..|passes|] == passes;
  }

  /** Only the flags of the pass atoms matter to the radicals. */
  lemma {:induction false} RadicalsOfLocal(passes: seq<Pass>, bonded1: set<Atom>, bonded2: set<Atom>)
    requires forall p :: p in passes ==> (p.cur in bonded1 <==> p.cur in bonded2) && (p.partner in bonded1 <==> p.partner in bonded2)
    ensures RadicalsOf(passes, bonded1) == RadicalsOf(passes, bonded2)
  {
    if passes != [] {
      RadicalsOfLocal(passes[..|passes| - 1], bonded1, bonded2);
    }
  }

  /** Only the flags of the listed atoms matter to the passes. */
  lemma {:induction false} PassesLocal(atoms: seq<Atom>, i: nat, paired1: set<Atom>, paired2: set<Atom>)
    requires forall a :: a in atoms ==> (a in paired1 <==> a in paired2)
    ensures Passes(atoms, i, paired1) == Passes(atoms, i, paired2)
    decreases |atoms| - i
  {
    if i < |atoms| {
      UnpairedDistancesLocal(atoms[i], atoms, paired1, paired2);
      if atoms[i] !in paired1 {
        var sorted := SortByKey(UnpairedDistances(atoms[i], atoms, paired1));
        if |sorted| >= 2 {
          PassesLocal(atoms, i + 1, paired1 + {atoms[i], sorted[1].1}, paired2 + {atoms[i], sorted[1].1});
        }
      } else {
        PassesLocal(atoms, i + 1, paired1, paired2);
      }
    }
  }

  /** Both atoms of every pass are atoms of the list that were not paired
      when the loop started. */
  lemma {:induction false} PassesMembers(atoms: seq<Atom>, i: nat, paired: set<Atom>)
    ensures forall p :: p in Passes(atoms, i, paired).passes ==>
              p.cur in atoms && p.partner in atoms && p.cur !in paired && p.partner !in paired
    decreases |atoms| - i
  {
    if i < |atoms| {
      if atoms[i] in paired {
        PassesMembers(atoms, i + 1, paired);
      } else if |UnpairedDistances(atoms[i], atoms, paired)| >= 2 {
        SecondNearestMember(atoms[i], atoms, paired);
        var partner := SortByKey(UnpairedDistances(atoms[i], atoms, paired))[1].1;
        PassesMembers(atoms, i + 1, paired + {atoms[i], partner});
      }
    }
  }

  /** The atoms the passes pair are atoms of the list that were not paired
      when the loop started. */
  lemma PassAtomsIn(atoms: seq<Atom>, i: nat, paired: set<Atom>)
    ensures forall x :: x in PassAtoms(Passes(atoms, i, paired).passes) ==> x in atoms && x !in paired
  {
    var passes := Passes(atoms, i, paired).passes;
    PassesMembers(atoms, i, paired);
    PassAtomsMembers(passes);
    forall x | x in PassAtoms(passes) ensures x in atoms && x !in paired {
      var j :| 0 <= j < |passes| && (x == passes[j].cur || x == passes[j].partner);
      assert passes[j] in passes;
    }
  }

  /** A loop that does not fail pairs every atom from position `i` on. */
  lemma {:induction false} PassesPairEvery(atoms: seq<Atom>, i: nat, paired: set<Atom>)
    ensures var run := Passes(atoms, i, paired);
            !run.failed ==> forall j :: i <= j < |atoms| ==> atoms[j] in paired || atoms[j] in PassAtoms(run.passes)
    decreases |atoms| - i
  {
    if i < |atoms| {
      if atoms[i] in paired {
        PassesPairEvery(atoms, i + 1, paired);
      } else if |UnpairedDistances(atoms[i], atoms, paired)| >= 2 {
        SecondNearestMember(atoms[i], atoms, paired);
        var partner := SortByKey(UnpairedDistances(atoms[i], atoms, paired))[1].1;
        var now := paired + {atoms[i], partner};
        PassesPairEvery(atoms, i + 1, now);
        var rest := Passes(atoms, i + 1, now);
        assert Passes(atoms, i, paired).passes == [Pass(atoms[i], partner)] + rest.passes;
        PassAtomsCons(Pass(atoms[i], partner), rest.passes);
      }
    }
  }

  /** The end of one pass of `assign_radical`: when exactly one of the two
      atoms is externally bonded, the other one is a radical; both atoms are
      then marked paired. */
  method ResolvePair(pdb: Pdb, cur: Atom, pairAtom: Atom)
    modifies pdb, cur, pairAtom
    ensures pdb.radicals == old(pdb.radicals)
              + (if old(cur.isBondedExternal) && !old(pairAtom.isBondedExternal) then [pairAtom]
                 else if !old(cur.isBondedExternal) && old(pairAtom.isBondedExternal) then [cur]
                 else [])
    ensures cur.isPaired && pairAtom.isPaired
    ensures cur.isBondedExternal == old(cur.isBondedExternal)
    ensures pairAtom.isBondedExternal == old(pairAtom.isBondedExternal)
    ensures forall a: Atom :: old(allocated(a)) ==>
              a.isBondedExternal == old(a.isBondedExternal) && (old(a.isPaired) ==> a.isPaired)
    ensures pdb.atoms == old(pdb.atoms) && pdb.chains == old(pdb.chains) && pdb.bondedPairs == old(pdb.bondedPairs)
    ensures pdb.bondedPairsCore == old(pdb.bondedPairsCore) && pdb.bondedPairsSurface == old(pdb.bondedPairsSurface)
  {
    if cur.isBondedExternal && !pairAtom.isBondedExternal {
      pdb.AddRadical(pairAtom);
    } else if !cur.isBondedExternal && pairAtom.isBondedExternal {
      pdb.AddRadical(cur);
    }
    cur.isPaired := true;
    pairAtom.isPaired := true;
  }

  /** The atoms of an atom map under the given names, in name order. */
  function NamedAtoms(atoms: map<string, Atom>, names: seq<string>): (named: seq<Atom>)
    requires forall n :: n in names ==> n in atoms
    ensures |named| == |names| && forall i :: 0 <= i < |names| ==> named[i] == atoms[names[i]]
  {
    if names == [] then []
    else NamedAtoms(atoms, names[..|names| - 1]) + [atoms[names[|names| - 1]]]
  }

  /** The atoms a chain holds under the given names, in name order. */
  method CollectAtoms(chain: Chain, names: seq<string>) returns (r: Result<seq<Atom>>)
    ensures r.Ok? <==> forall i :: 0 <= i < |names| ==> names[i] in chain.atoms
    ensures r.Err? ==> r.error == KeyError
    ensures r.Ok? ==> |r.value| == |names| && forall i :: 0 <= i < |names| ==> r.value[i] == chain.atoms[names[i]]
  {
    var atoms: seq<Atom> := [];
    for i := 0 to |names|
      invariant |atoms| == i
      invariant forall j :: 0 <= j < i ==> names[j] in chain.atoms && atoms[j] == chain.atoms[names[j]]
    {
      if names[i] !in chain.atoms {
        return Err(KeyError);
      }
      atoms := atoms + [chain.atoms[names[i]]];
    }
    return Ok(atoms);
  }

  /** What `assign_radical` reads of a chain: its type and its atom map. */
  datatype ChainView = ChainView(chainType: string, atoms: map<string, Atom>)

  function View(chain: Chain): ChainView
    reads chain
  {
    ChainView(chain.chainType, chain.atoms)
  }

  /** The views of a list of chains, in list order. */
  function Views(chains: seq<Chain>): (views: seq<ChainView>)
    reads chains
    ensures |views| == |chains| && forall j :: 0 <= j < |chains| ==> views[j] == View(chains[j])
  {
    seq(|chains|, j reads chains requires 0 <= j < |chains| => View(chains[j]))
  }

  /** The chain's type is a key of the reactive dictionary and every name
      listed under it is in the atom map: `assign_radical` raises no
      `KeyError`. */
  predicate Present(view: ChainView, reactive: map<string, seq<string>>)
  {
    view.chainType in reactive && forall n :: n in reactive[view.chainType] ==> n in view.atoms
  }

  /** The reactive atoms `assign_radical` walks on a chain. */
  function ReactiveOf(view: ChainView, reactive: map<string, seq<string>>): seq<Atom>
    requires Present(view, reactive)
  {
    NamedAtoms(view.atoms, reactive[view.chainType])
  }

  predicate NamesPresent(chain: Chain, reactive: map<string, seq<string>>)
    reads chain
  {
    Present(View(chain), reactive)
  }

  function ReactiveAtomsOf(chain: Chain, reactive: map<string, seq<string>>): seq<Atom>
    reads chain
    requires NamesPresent(chain, reactive)
  {
    ReactiveOf(View(chain), reactive)
  }

  /** Every reactive atom of the chain's type named in `reactive` is present
      and marked paired. */
  predicate ChainResolved(chain: Chain, reactive: map<string, seq<string>>)
    reads chain, chain.atoms.Values
  {
    chain.chainType in reactive
    && forall n :: n in reactive[chain.chainType] ==> n in chain.atoms && chain.atoms[n].isPaired
  }

  /** `ChainResolved` on values: every reactive atom of the type is in the
      atom map and in `paired`. */
  ghost predicate ResolvedBy(chainType: string, atoms: map<string, Atom>,
                             reactive: map<string, seq<string>>, paired: set<Atom>)
  {
    chainType in reactive && forall n :: n in reactive[chainType] ==> n in atoms && atoms[n] in paired
  }

  /** Where the paired flags over `swept` are `paired`, `ResolvedBy` on the
      chain's atom map is `ChainResolved`. */
  lemma ResolvedFlags(chain: Chain, reactive: map<string, seq<string>>, paired: set<Atom>, swept: set<Atom>)
    requires chain.atoms.Values <= swept
    requires forall a :: a in swept ==> (a.isPaired <==> a in paired)
    requires ResolvedBy(chain.chainType, chain.atoms, reactive, paired)
    ensures ChainResolved(chain, reactive)
  {
    forall n | n in reactive[chain.chainType]
      ensures n in chain.atoms && chain.atoms[n].isPaired
    {
      assert chain.atoms[n] in chain.atoms.Values;
    }
  }

  /** The passes over a chain's reactive atoms depend only on the flags of
      those atoms, and touch no atom outside the chain. */
  lemma PassesOfChain(atoms: seq<Atom>, values: set<Atom>, pairedOf: set<Atom>, paired: set<Atom>,
                      bondedOf: set<Atom>, bonded: set<Atom>)
    requires forall a :: a in atoms ==> a in values
    requires forall a :: a in atoms ==> (a in pairedOf <==> a in paired) && (a in bondedOf <==> a in bonded)
    ensures var run := Passes(atoms, 0, paired);
            Passes(atoms, 0, pairedOf) == run && RadicalsOf(run.passes, bondedOf) == RadicalsOf(run.passes, bonded)
            && forall a :: a in values && a !in atoms ==> a !in PassAtoms(run.passes)
  {
    var run := Passes(atoms, 0, paired);
    PassesLocal(atoms, 0, pairedOf, paired);
    PassesMembers(atoms, 0, paired);
    RadicalsOfLocal(run.passes, bondedOf, bonded);
    PassAtomsIn(atoms, 0, paired);
  }

  /** `assign_radical`: walks the chain's reactive atoms in list order as
      `Passes` describes, from the `is_paired` flags on entry, and records
      the radicals `RadicalsOf` gives; the atoms of its passes become
      paired. A missing chain type or atom name is a `KeyError` before
      anything changes; a pass with fewer than two unpaired atoms is an
      `IndexError`, after the radicals of the earlier passes are recorded. */
  method AssignRadical(pdb: Pdb, chain: Chain, reactive: map<string, seq<string>>) returns (r: Outcome)
    modifies pdb, chain.atoms.Values
    ensures r.Err? ==> r.error == KeyError || r.error == IndexError
    ensures chain.chainType !in reactive ==> r == Err(KeyError)
    ensures chain.chainType in reactive && (exists n :: n in reactive[chain.chainType] && n !in chain.atoms) ==>
              r == Err(KeyError)
    ensures r == Err(KeyError) ==> unchanged(pdb) && unchanged(chain.atoms.Values)
    ensures NamesPresent(chain, reactive) ==>
              var run := Passes(ReactiveAtomsOf(chain, reactive), 0, old(PairedIn(chain.atoms.Values)));
              (r.Err? <==> run.failed) && (r.Err? ==> r.error == IndexError)
              && pdb.radicals == old(pdb.radicals) + RadicalsOf(run.passes, old(BondedIn(chain.atoms.Values)))
              && forall a :: a in chain.atoms.Values ==> (a.isPaired <==> old(a.isPaired) || a in PassAtoms(run.passes))
    ensures r.Ok? ==> ChainResolved(chain, reactive)
    ensures forall a: Atom :: old(allocated(a)) ==>
              a.isBondedExternal == old(a.isBondedExternal) && (old(a.isPaired) ==> a.isPaired)
    ensures pdb.atoms == old(pdb.atoms) && pdb.chains == old(pdb.chains) && pdb.bondedPairs == old(pdb.bondedPairs)
    ensures pdb.bondedPairsCore == old(pdb.bondedPairsCore) && pdb.bondedPairsSurface == old(pdb.bondedPairsSurface)
    ensures old(pdb.radicals) <= pdb.radicals
    ensures forall k :: |old(pdb.radicals)| <= k < |pdb.radicals| ==>
              pdb.radicals[k] in chain.atoms.Values && !pdb.radicals[k].isBondedExternal
  {
    ghost var paired := PairedIn(chain.atoms.Values);
    ghost var bonded := BondedIn(chain.atoms.Values);
    if chain.chainType !in reactive {
      return Err(KeyError);
    }
    var atomNames := reactive[chain.chainType];
    var atoms :- CollectAtoms(chain, atomNames);
    assert NamesPresent(chain, reactive) by {
      forall n | n in atomNames ensures n in chain.atoms {
        var j :| 0 <= j < |atomNames| && atomNames[j] == n;
      }
    }
    assert atoms == ReactiveAtomsOf(chain, reactive);
    assert forall a :: a in atoms ==> a in chain.atoms.Values;
    ghost var pairedOf := PairedOf(atoms);
    ghost var bondedOf := BondedOf(atoms);
    PassesOfChain(atoms, chain.atoms.Values, pairedOf, paired, bondedOf, bonded);
    r := PairAtoms(pdb, atoms);
    assert View(chain) == old(View(chain));
    if r.Ok? {
      assert forall n :: n in atomNames ==> exists j :: 0 <= j < |atomNames| && atomNames[j] == n;
    }
  }

  /** The radicals of the passes over `atoms`, appended after `base`, are
      atoms of the list that are not externally bonded. */
  lemma PassesTail(pdb: Pdb, base: seq<Atom>, atoms: seq<Atom>, paired: set<Atom>, bonded: set<Atom>)
    requires pdb.radicals == base + RadicalsOf(Passes(atoms, 0, paired).passes, bonded)
    requires forall a :: a in atoms ==> (a.isBondedExternal <==> a in bonded)
    ensures base <= pdb.radicals
    ensures forall k :: |base| <= k < |pdb.radicals| ==>
              pdb.radicals[k] in atoms && !pdb.radicals[k].isBondedExternal
  {
    var radicals := RadicalsOf(Passes(atoms, 0, paired).passes, bonded);
    PassAtomsIn(atoms, 0, paired);
    RadicalsOfMembers(Passes(atoms, 0, paired).passes, bonded);
    forall k | |base| <= k < |pdb.radicals|
      ensures pdb.radicals[k] in atoms && !pdb.radicals[k].isBondedExternal
    {
      assert pdb.radicals[k] == radicals[k - |base|];
    }
  }

  /** The loop of `assign_radical` over the reactive atoms, in list order:
      it takes exactly the passes `Passes` describes from the flags on
      entry, and records the radicals `RadicalsOf` gives. */
  method PairAtoms(pdb: Pdb, atoms: seq<Atom>) returns (r: Outcome)
    modifies pdb, atoms
    ensures var run := Passes(atoms, 0, old(PairedOf(atoms)));
            (r.Err? <==> run.failed) && (r.Err? ==> r.error == IndexError)
            && pdb.radicals == old(pdb.radicals) + RadicalsOf(run.passes, old(BondedOf(atoms)))
            && forall a :: a in atoms ==> (a.isPaired <==> old(a.isPaired) || a in PassAtoms(run.passes))
    ensures r.Ok? ==> forall j :: 0 <= j < |atoms| ==> atoms[j].isPaired
    ensures forall a: Atom :: old(allocated(a)) ==>
              a.isBondedExternal == old(a.isBondedExternal) && (old(a.isPaired) ==> a.isPaired)
    ensures pdb.atoms == old(pdb.atoms) && pdb.chains == old(pdb.chains) && pdb.bondedPairs == old(pdb.bondedPairs)
    ensures pdb.bondedPairsCore == old(pdb.bondedPairsCore) && pdb.bondedPairsSurface == old(pdb.bondedPairsSurface)
    ensures old(pdb.radicals) <= pdb.radicals
    ensures forall k :: |old(pdb.radicals)| <= k < |pdb.radicals| ==>
              pdb.radicals[k] in atoms && !pdb.radicals[k].isBondedExternal
  {
    ghost var paired := PairedOf(atoms);
    ghost var bonded := BondedOf(atoms);
    ghost var run := Passes(atoms, 0, paired);
    ghost var done: seq<Pass> := [];
    ghost var now := paired;
    assert PassAtoms(done) == {};
    for i := 0 to |atoms|
      invariant Between(atoms, paired, run, i, done, now)
      invariant pdb.radicals == old(pdb.radicals) + RadicalsOf(done, bonded)
      invariant forall a :: a in atoms ==> (a.isPaired <==> a in now)
      invariant forall a :: a in atoms ==> (a.isBondedExternal <==> a in bonded)
      invariant forall a: Atom :: old(allocated(a)) ==>
                a.isBondedExternal == old(a.isBondedExternal) && (old(a.isPaired) ==> a.isPaired)
      invariant pdb.atoms == old(pdb.atoms) && pdb.chains == old(pdb.chains) && pdb.bondedPairs == old(pdb.bondedPairs)
      invariant pdb.bondedPairsCore == old(pdb.bondedPairsCore) && pdb.bondedPairsSurface == old(pdb.bondedPairsSurface)
    {
      var step;
      step, done, now := PairStep(pdb, atoms, i, paired, bonded, run, done, now, old(pdb.radicals));
      if step.Err? {
        PassesTail(pdb, old(pdb.radicals), atoms, paired, bonded);
        return Err(IndexError);
      }
    }
    assert Passes(atoms, |atoms|, now) == Run([], false);
    assert run.passes == done;
    PassesTail(pdb, old(pdb.radicals), atoms, paired, bonded);
    assert forall j :: 0 <= j < |atoms| ==> atoms[j] in now by {
      PassesPairEvery(atoms, 0, paired);
    }
    return Ok(());
  }

  /** After the passes `done`, the loop of `PairAtoms` stands at position
      `i` of `run`, with `now` the atoms paired so far. */
  ghost predicate Between(atoms: seq<Atom>, paired: set<Atom>, run: Run, i: nat, done: seq<Pass>, now: set<Atom>) {
    now == paired + PassAtoms(done)
    && run.passes == done + Passes(atoms, i, now).passes
    && run.failed == Passes(atoms, i, now).failed
  }

  /** An atom already paired is skipped. */
  lemma BetweenSkip(atoms: seq<Atom>, paired: set<Atom>, run: Run, i: nat, done: seq<Pass>, now: set<Atom>)
    requires i < |atoms| && atoms[i] in now && Between(atoms, paired, run, i, done, now)
    ensures Between(atoms, paired, run, i + 1, done, now)
  {
    assert Passes(atoms, i, now) == Passes(atoms, i + 1, now);
  }

  /** Fewer than two unpaired atoms end the run with a failure. */
  lemma BetweenFail(atoms: seq<Atom>, paired: set<Atom>, run: Run, i: nat, done: seq<Pass>, now: set<Atom>)
    requires i < |atoms| && atoms[i] !in now && Between(atoms, paired, run, i, done, now)
    requires |UnpairedDistances(atoms[i], atoms, now)| < 2
    ensures run.failed && run.passes == done
  {
    assert Passes(atoms, i, now) == Run([], true);
  }

  /** A pass that finds its partner is the next pass of the run. */
  lemma {:induction false} BetweenStep(atoms: seq<Atom>, paired: set<Atom>, run: Run, i: nat, done: seq<Pass>, now: set<Atom>, partner: Atom)
    requires i < |atoms| && atoms[i] !in now && Between(atoms, paired, run, i, done, now)
    requires |UnpairedDistances(atoms[i], atoms, now)| >= 2
    requires partner == SortByKey(UnpairedDistances(atoms[i], atoms, now))[1].1
    ensures Between(atoms, paired, run, i + 1, done + [Pass(atoms[i], partner)], now + {atoms[i], partner})
  {
    var pass := Pass(atoms[i], partner);
    var next := now + {atoms[i], partner};
    PassesStep(atoms, i, paired, done, now, partner);
    assert done + ([pass] + Passes(atoms, i + 1, next).passes) == (done + [pass]) + Passes(atoms, i + 1, next).passes;
  }

  /** One pass of `PairAtoms` on an atom not yet paired: the partner is the
      one `Passes` takes, the radical is recorded and both atoms become
      paired; with fewer than two unpaired atoms it is an `IndexError`, the
      run ends there and nothing changes. */
  method TakePass(pdb: Pdb, atoms: seq<Atom>, i: nat, ghost paired: set<Atom>, ghost bonded: set<Atom>,
                  ghost run: Run, ghost done: seq<Pass>, ghost now: set<Atom>, ghost base: seq<Atom>)
    returns (r: Outcome, ghost done': seq<Pass>, ghost now': set<Atom>)
    requires i < |atoms| && atoms[i] !in now && Between(atoms, paired, run, i, done, now)
    requires pdb.radicals == base + RadicalsOf(done, bonded)
    requires forall a :: a in atoms ==> (a.isBondedExternal <==> a in bonded)
    requires forall a :: a in atoms ==> (a.isPaired <==> a in now)
    modifies pdb, atoms
    ensures r.Err? ==> r.error == IndexError && run.failed && run.passes == done
                       && pdb.radicals == old(pdb.radicals)
                       && forall a :: a in atoms ==> (a.isPaired <==> a in now)
    ensures r.Ok? ==> Between(atoms, paired, run, i + 1, done', now')
                      && pdb.radicals == base + RadicalsOf(done', bonded)
                      && forall a :: a in atoms ==> (a.isPaired <==> a in now')
    ensures forall a: Atom :: old(allocated(a)) ==>
              a.isBondedExternal == old(a.isBondedExternal) && (old(a.isPaired) ==> a.isPaired)
    ensures pdb.atoms == old(pdb.atoms) && pdb.chains == old(pdb.chains) && pdb.bondedPairs == old(pdb.bondedPairs)
    ensures pdb.bondedPairsCore == old(pdb.bondedPairsCore) && pdb.bondedPairsSurface == old(pdb.bondedPairsSurface)
  {
    var curAtom := atoms[i];
    UnpairedDistancesLocal(curAtom, atoms, PairedOf(atoms), now);
    var found := SecondNearest(curAtom, atoms);
    if found.Err? {
      BetweenFail(atoms, paired, run, i, done, now);
      return Err(IndexError), done, now;
    }
    var pairAtom := found.value;
    var pass := Pass(curAtom, pairAtom);
    SecondNearestMember(curAtom, atoms, now);
    BetweenStep(atoms, paired, run, i, done, now, pairAtom);
    RadicalsOfSnoc(done, pass, bonded);
    ResolvePair(pdb, curAtom, pairAtom);
    done' := done + [pass];
    now' := now + {curAtom, pairAtom};
    assert base + (RadicalsOf(done, bonded) + PassRadicals(pass, bonded)) == base + RadicalsOf(done', bonded);
    r := Ok(());
  }

  /** One turn of the loop of `assign_radical`: an atom already paired is
      skipped, any other one takes its pass. */
  method PairStep(pdb: Pdb, atoms: seq<Atom>, i: nat, ghost paired: set<Atom>, ghost bonded: set<Atom>,
                  ghost run: Run, ghost done: seq<Pass>, ghost now: set<Atom>, ghost base: seq<Atom>)
    returns (r: Outcome, ghost done': seq<Pass>, ghost now': set<Atom>)
    requires i < |atoms| && Between(atoms, paired, run, i, done, now)
    requires pdb.radicals == base + RadicalsOf(done, bonded)
    requires forall a :: a in atoms ==> (a.isBondedExternal <==> a in bonded)
    requires forall a :: a in atoms ==> (a.isPaired <==> a in now)
    modifies pdb, atoms
    ensures r.Err? ==> r.error == IndexError && run.failed && run.passes == done
                       && pdb.radicals == old(pdb.radicals)
                       && forall a :: a in atoms ==> (a.isPaired <==> a in now)
    ensures r.Ok? ==> Between(atoms, paired, run, i + 1, done', now')
                      && pdb.radicals == base + RadicalsOf(done', bonded)
                      && forall a :: a in atoms ==> (a.isPaired <==> a in now')
    ensures forall a: Atom :: old(allocated(a)) ==>
              a.isBondedExternal == old(a.isBondedExternal) && (old(a.isPaired) ==> a.isPaired)
    ensures pdb.atoms == old(pdb.atoms) && pdb.chains == old(pdb.chains) && pdb.bondedPairs == old(pdb.bondedPairs)
    ensures pdb.bondedPairsCore == old(pdb.bondedPairsCore) && pdb.bondedPairsSurface == old(pdb.bondedPairsSurface)
  {
    if atoms[i].isPaired {
      BetweenSkip(atoms, paired, run, i, done, now);
      return Ok(()), done, now;
    }
    r, done', now' := TakePass(pdb, atoms, i, paired, bonded, run, done, now, base);
  }

  /** A pass that finds a partner unfolds `Passes` by one step. */
  lemma {:induction false} PassesStep(atoms: seq<Atom>, i: nat, paired: set<Atom>, done: seq<Pass>, now: set<Atom>, partner: Atom)
    requires now == paired + PassAtoms(done)
    requires i < |atoms| && atoms[i] !in now
    requires |SortByKey(UnpairedDistances(atoms[i], atoms, now))| >= 2
    requires partner == SortByKey(UnpairedDistances(atoms[i], atoms, now))[1].1
    ensures paired + PassAtoms(done + [Pass(atoms[i], partner)]) == now + {atoms[i], partner}
    ensures Passes(atoms, i, now)
              == Run([Pass(atoms[i], partner)] + Passes(atoms, i + 1, now + {atoms[i], partner}).passes,
                     Passes(atoms, i + 1, now + {atoms[i], partner}).failed)
  {
    var pass := Pass(atoms[i], partner);
    assert (done + [pass])[..|done|] == done;
    assert PassAtoms(done + [pass]) == PassAtoms(done) + {atoms[i], partner};
  }


  /** The distinct chains of a list, under `Chain.__eq__`, in first-occurrence
      order: the iteration order the model gives Python's `set`. */
  function DistinctChains(chains: seq<Chain>): seq<Chain> {
    if chains == [] then []
    else
      var init := DistinctChains(chains[..|chains| - 1]);
      var last := chains[|chains| - 1];
      if ChainIn(last, init) then init else init + [last]
  }

  /** The distinct chains are chains of the list. */
  lemma {:induction false} DistinctChainsMembers(chains: seq<Chain>)
    ensures forall c :: c in DistinctChains(chains) ==> c in chains
  {
    if chains != [] {
      DistinctChainsMembers(chains[..|chains| - 1]);
    }
  }

  /** Every chain of the list has its id among the distinct chains. */
  lemma {:induction false} DistinctChainsCover(chains: seq<Chain>)
    ensures forall i :: 0 <= i < |chains| ==> ChainIn(chains[i], DistinctChains(chains))
  {
    if chains != [] {
      var prefix := chains[..|chains| - 1];
      var last := chains[|chains| - 1];
      var init := DistinctChains(prefix);
      DistinctChainsCover(prefix);
      assert forall i :: 0 <= i < |prefix| ==> prefix[i] == chains[i];
      if !ChainIn(last, init) {
        assert (init + [last])[|init|] == last;
        forall i | 0 <= i < |chains| - 1 ensures ChainIn(chains[i], init + [last]) {
          ChainInAppend(chains[i], init, [last]);
        }
      }
    }
  }

  /** No chain id occurs twice in the list. */
  predicate Unique(chains: seq<Chain>) {
    forall i, j :: 0 <= i < j < |chains| ==> !chains[i].Equals(chains[j])
  }

  /** No chain id occurs twice among the distinct chains. */
  lemma {:induction false} DistinctChainsUnique(chains: seq<Chain>)
    ensures Unique(DistinctChains(chains))
  {
    if chains != [] {
      var init := DistinctChains(chains[..|chains| - 1]);
      var last := chains[|chains| - 1];
      DistinctChainsUnique(chains[..|chains| - 1]);
      assert DistinctChains(chains) == if ChainIn(last, init) then init else init + [last];
      if !ChainIn(last, init) {
        var d := init + [last];
        forall i, j | 0 <= i < j < |d| ensures !d[i].Equals(d[j]) {
          if j == |init| {
            assert d[i] == init[i] && d[j] == last;
            assert !init[i].Equals(last);
          } else {
            assert d[i] == init[i] && d[j] == init[j];
          }
        }
      }
    }
  }

  lemma DistinctChainsSnoc(chains: seq<Chain>, chain: Chain)
    ensures DistinctChains(chains + [chain])
            == if ChainIn(chain, DistinctChains(chains)) then DistinctChains(chains) else DistinctChains(chains) + [chain]
  {
    assert (chains + [chain])[..|chains|] == chains;
  }

  /** The atoms held by a list of chains. */
  function AtomsOf(chains: seq<Chain>): set<Atom>
    reads chains
  {
    set c, a | c in chains && a in c.atoms.Values :: a
  }

  /** The atoms held by a list of chain views. */
  function ViewAtoms(views: seq<ChainView>): set<Atom>
  {
    set v, a | v in views && a in v.atoms.Values :: a
  }


  /** What `find_radicals` records over a list of chains, and the error it
      stops on, if any. */
  datatype Sweep = Sweep(radicals: seq<Atom>, error: Option<PyError>)

  /** `find_radicals` on values: `assign_radical` on each chain in turn,
      the passes of each chain starting from the atoms paired by the chains
      before it. The radicals of a chain that stops on an `IndexError` stay
      recorded; a `KeyError` records nothing for its chain. */
  function ChainsSweep(chains: seq<ChainView>, reactive: map<string, seq<string>>,
                       paired: set<Atom>, bonded: set<Atom>): Sweep
    decreases |chains|
  {
    if chains == [] then Sweep([], None)
    else if !Present(chains[0], reactive) then Sweep([], Some(KeyError))
    else
      var run := Passes(ReactiveOf(chains[0], reactive), 0, paired);
      var radicals := RadicalsOf(run.passes, bonded);
      if run.failed then Sweep(radicals, Some(IndexError))
      else
        var rest := ChainsSweep(chains[1..], reactive, paired + PassAtoms(run.passes), bonded);
        Sweep(radicals + rest.radicals, rest.error)
  }

  /** Every radical a pass records is an atom of the pass and is not
      externally bonded. */
  lemma {:induction false} RadicalsOfMembers(passes: seq<Pass>, bonded: set<Atom>)
    ensures forall x :: x in RadicalsOf(passes, bonded) ==> x !in bonded && x in PassAtoms(passes)
  {
    RadicalsOfSound(passes, bonded);
    forall x | x in RadicalsOf(passes, bonded)
      ensures x in PassAtoms(passes)
    {
      var j :| 0 <= j < |passes| && RadicalOfPass(x, passes[j], bonded);
      PassAtomsMembers(passes);
    }
  }

  /** Every radical `find_radicals` records is an atom of one of the chains
      and is not externally bonded. */
  lemma {:induction false} ChainsSweepSound(chains: seq<ChainView>, reactive: map<string, seq<string>>,
                                            paired: set<Atom>, bonded: set<Atom>)
    ensures forall x :: x in ChainsSweep(chains, reactive, paired, bonded).radicals ==>
              x !in bonded && x in ViewAtoms(chains)
    decreases |chains|
  {
    if chains != [] && Present(chains[0], reactive) {
      var atoms := ReactiveOf(chains[0], reactive);
      var run := Passes(atoms, 0, paired);
      RadicalsOfMembers(run.passes, bonded);
      PassesMembers(atoms, 0, paired);
      PassAtomsMembers(run.passes);
      forall x | x in PassAtoms(run.passes)
        ensures x in ViewAtoms(chains)
      {
        var j :| 0 <= j < |run.passes| && (x == run.passes[j].cur || x == run.passes[j].partner);
        assert run.passes[j] in run.passes;
        var k :| 0 <= k < |atoms| && atoms[k] == x;
        assert x in chains[0].atoms.Values;
        assert chains[0] in chains;
      }
      if !run.failed {
        ChainsSweepSound(chains[1..], reactive, paired + PassAtoms(run.passes), bonded);
        forall x | x in ViewAtoms(chains[1..]) ensures x in ViewAtoms(chains) {
          var c :| c in chains[1..] && x in c.atoms.Values;
        }
      }
    }
  }

  /** The set-building loop of `find_radicals`: both chains of every
      committed pair, without duplicates. */
  method BondedChains(pdb: Pdb) returns (chains: seq<Chain>)
    ensures chains == DistinctChains(ChainEnds(pdb.bondedPairs))
  {
    chains := [];
    var pairs := pdb.bondedPairs;
    for i := 0 to |pairs|
      invariant chains == DistinctChains(ChainEnds(pairs[..i]))
    {
      ghost var ends := ChainEnds(pairs[..i]);
      assert pairs[..i + 1] == pairs[..i] + [pairs[i]];
      ChainEndsSnoc(pairs[..i], pairs[i]);
      assert ends + [pairs[i].chain1, pairs[i].chain2] == ends + [pairs[i].chain1] + [pairs[i].chain2];
      DistinctChainsSnoc(ends, pairs[i].chain1);
      DistinctChainsSnoc(ends + [pairs[i].chain1], pairs[i].chain2);
      if !ChainIn(pairs[i].chain1, chains) {
        chains := chains + [pairs[i].chain1];
      }
      if !ChainIn(pairs[i].chain2, chains) {
        chains := chains + [pairs[i].chain2];
      }
    }
    assert pairs[..|pairs|] == pairs;
  }

  /** `ChainsSweep` from the `i`-th chain on: that chain's passes, then
      the chains after it. */
  lemma ChainsSweepAt(chains: seq<ChainView>, i: nat, reactive: map<string, seq<string>>,
                      paired: set<Atom>, bonded: set<Atom>)
    requires i < |chains|
    ensures var sweep := ChainsSweep(chains[i..], reactive, paired, bonded);
            if !Present(chains[i], reactive) then sweep == Sweep([], Some(KeyError))
            else
              var run := Passes(ReactiveOf(chains[i], reactive), 0, paired);
              var radicals := RadicalsOf(run.passes, bonded);
              if run.failed then sweep == Sweep(radicals, Some(IndexError))
              else
                var rest := ChainsSweep(chains[i + 1..], reactive, paired + PassAtoms(run.passes), bonded);
                sweep == Sweep(radicals + rest.radicals, rest.error)
  {
    assert chains[i..][0] == chains[i] && chains[i..][1..] == chains[i + 1..];
  }

  /** One turn of the loop of `find_radicals`: `assign_radical` on one
      chain, seen as `view`, whose atoms lie in `swept`, where the paired
      and bonded flags are `paired` and `bonded`. It records the radicals of
      that chain's passes and leaves `paired'` as the paired atoms. */
  method SweepChain(pdb: Pdb, chain: Chain, reactive: map<string, seq<string>>, ghost view: ChainView,
                    ghost swept: set<Atom>, ghost paired: set<Atom>, ghost bonded: set<Atom>)
    returns (r: Outcome, ghost radicals: seq<Atom>, ghost paired': set<Atom>)
    requires view == View(chain) && view.atoms.Values <= swept
    requires forall a :: a in swept ==> (a.isPaired <==> a in paired)
    requires forall a :: a in swept ==> (a.isBondedExternal <==> a in bonded)
    modifies pdb, chain.atoms.Values
    ensures !Present(view, reactive) ==> r == Err(KeyError) && radicals == [] && paired' == paired
    ensures Present(view, reactive) ==>
              var run := Passes(ReactiveOf(view, reactive), 0, paired);
              (r.Err? <==> run.failed) && (r.Err? ==> r.error == IndexError)
              && radicals == RadicalsOf(run.passes, bonded) && paired' == paired + PassAtoms(run.passes)
    ensures pdb.radicals == old(pdb.radicals) + radicals
    ensures forall a :: a in swept ==> (a.isPaired <==> a in paired')
    ensures forall a :: a in swept ==> (a.isBondedExternal <==> a in bonded)
    ensures r.Ok? ==> ResolvedBy(view.chainType, view.atoms, reactive, paired')
    ensures forall a: Atom :: old(allocated(a)) ==>
              a.isBondedExternal == old(a.isBondedExternal) && (old(a.isPaired) ==> a.isPaired)
    ensures pdb.atoms == old(pdb.atoms) && pdb.chains == old(pdb.chains) && pdb.bondedPairs == old(pdb.bondedPairs)
    ensures pdb.bondedPairsCore == old(pdb.bondedPairsCore) && pdb.bondedPairsSurface == old(pdb.bondedPairsSurface)
  {
    ghost var local := PairedIn(chain.atoms.Values);
    ghost var localBonded := BondedIn(chain.atoms.Values);
    r := AssignRadical(pdb, chain, reactive);
    assert View(chain) == view;
    if Present(view, reactive) {
      ghost var atoms := ReactiveOf(view, reactive);
      ghost var run := Passes(atoms, 0, paired);
      assert forall a :: a in atoms ==> a in chain.atoms.Values;
      PassesLocal(atoms, 0, local, paired);
      PassesMembers(atoms, 0, paired);
      RadicalsOfLocal(run.passes, localBonded, bonded);
      PassAtomsIn(atoms, 0, paired);
      radicals := RadicalsOf(run.passes, bonded);
      paired' := paired + PassAtoms(run.passes);
    } else {
      radicals := [];
      paired' := paired;
    }
    if r.Ok? {
      forall n | n in reactive[view.chainType]
        ensures n in view.atoms && view.atoms[n] in paired'
      {
        assert view.atoms[n] in view.atoms.Values;
      }
    }
  }

  /** The `i`-th turn of the loop of `find_radicals`, related to
      `ChainsSweep` over the views of the chains: `done` is what the turns
      before it recorded after `base`. */
  method SweepStep(pdb: Pdb, bondedChains: seq<Chain>, i: nat, reactive: map<string, seq<string>>,
                   ghost views: seq<ChainView>, ghost swept: set<Atom>, ghost paired: set<Atom>,
                   ghost bonded: set<Atom>, ghost base: seq<Atom>, ghost done: seq<Atom>)
    returns (r: Outcome, ghost done': seq<Atom>, ghost paired': set<Atom>)
    requires i < |bondedChains| && Views(bondedChains) == views && views[i].atoms.Values <= swept
    requires pdb.radicals == base + done
    requires forall a :: a in swept ==> (a.isPaired <==> a in paired)
    requires forall a :: a in swept ==> (a.isBondedExternal <==> a in bonded)
    modifies pdb, bondedChains[i].atoms.Values
    ensures Views(bondedChains) == views
    ensures var tail := ChainsSweep(views[i..], reactive, paired, bonded);
            if r.Err? then tail.error == Some(r.error) && pdb.radicals == base + (done + tail.radicals)
            else
              var rest := ChainsSweep(views[i + 1..], reactive, paired', bonded);
              done + tail.radicals == done' + rest.radicals && tail.error == rest.error
              && pdb.radicals == base + done' && ResolvedBy(views[i].chainType, views[i].atoms, reactive, paired')
    ensures r.Err? ==> r.error == KeyError || r.error == IndexError
    ensures paired <= paired'
    ensures forall a :: a in swept ==> (a.isPaired <==> a in paired')
    ensures forall a :: a in swept ==> (a.isBondedExternal <==> a in bonded)
    ensures forall a: Atom :: old(allocated(a)) ==>
              a.isBondedExternal == old(a.isBondedExternal) && (old(a.isPaired) ==> a.isPaired)
    ensures pdb.atoms == old(pdb.atoms) && pdb.chains == old(pdb.chains) && pdb.bondedPairs == old(pdb.bondedPairs)
    ensures pdb.bondedPairsCore == old(pdb.bondedPairsCore) && pdb.bondedPairsSurface == old(pdb.bondedPairsSurface)
  {
    ChainsSweepAt(views, i, reactive, paired, bonded);
    ghost var radicals;
    r, radicals, paired' := SweepChain(pdb, bondedChains[i], reactive, views[i], swept, paired, bonded);
    AppendAssoc(base, done, radicals);
    done' := done + radicals;
    if r.Ok? {
      ghost var rest := ChainsSweep(views[i + 1..], reactive, paired', bonded);
      AppendAssoc(done, radicals, rest.radicals);
    }
  }

  /** The loop of `find_radicals` over its chains, seen as `views`, whose
      atoms are `swept` and carry the paired and bonded flags `paired` and
      `bonded`: it records the radicals `ChainsSweep` gives and stops on its
      error. */
  method SweepChains(pdb: Pdb, bondedChains: seq<Chain>, reactive: map<string, seq<string>>,
                     ghost views: seq<ChainView>, ghost swept: set<Atom>, ghost paired: set<Atom>, ghost bonded: set<Atom>)
    returns (r: Outcome)
    requires Views(bondedChains) == views && swept == ViewAtoms(views)
    requires forall j :: 0 <= j < |views| ==> views[j].atoms.Values <= swept
    requires forall a :: a in swept ==> (a.isPaired <==> a in paired)
    requires forall a :: a in swept ==> (a.isBondedExternal <==> a in bonded)
    modifies pdb, swept
    ensures var sweep := ChainsSweep(views, reactive, paired, bonded);
            (r.Err? <==> sweep.error.Some?) && (r.Err? ==> r.error == sweep.error.value)
            && pdb.radicals == old(pdb.radicals) + sweep.radicals
    ensures r.Err? ==> r.error == KeyError || r.error == IndexError
    ensures r.Ok? ==> forall c :: c in bondedChains ==> ChainResolved(c, reactive)
    ensures forall a: Atom :: old(allocated(a)) ==>
              a.isBondedExternal == old(a.isBondedExternal) && (old(a.isPaired) ==> a.isPaired)
    ensures pdb.atoms == old(pdb.atoms) && pdb.chains == old(pdb.chains) && pdb.bondedPairs == old(pdb.bondedPairs)
    ensures pdb.bondedPairsCore == old(pdb.bondedPairsCore) && pdb.bondedPairsSurface == old(pdb.bondedPairsSurface)
    ensures old(pdb.radicals) <= pdb.radicals
    ensures forall k :: |old(pdb.radicals)| <= k < |pdb.radicals| ==> !pdb.radicals[k].isBondedExternal
  {
    ghost var sweep := ChainsSweep(views, reactive, paired, bonded);
    ChainsSweepSound(views, reactive, paired, bonded);
    ghost var now := paired;
    ghost var done: seq<Atom> := [];
    for i := 0 to |bondedChains|
      invariant sweep.radicals == done + ChainsSweep(views[i..], reactive, now, bonded).radicals
      invariant sweep.error == ChainsSweep(views[i..], reactive, now, bonded).error
      invariant pdb.radicals == old(pdb.radicals) + done
      invariant forall a :: a in swept ==> (a.isPaired <==> a in now)
      invariant forall a :: a in swept ==> (a.isBondedExternal <==> a in bonded)
      invariant forall j :: 0 <= j < i ==> ResolvedBy(views[j].chainType, views[j].atoms, reactive, now)
      invariant Views(bondedChains) == views
      invariant forall a: Atom :: old(allocated(a)) ==>
                a.isBondedExternal == old(a.isBondedExternal) && (old(a.isPaired) ==> a.isPaired)
      invariant pdb.atoms == old(pdb.atoms) && pdb.chains == old(pdb.chains) && pdb.bondedPairs == old(pdb.bondedPairs)
      invariant pdb.bondedPairsCore == old(pdb.bondedPairsCore) && pdb.bondedPairsSurface == old(pdb.bondedPairsSurface)
    {
      ghost var nowBefore := now;
      r, done, now := SweepStep(pdb, bondedChains, i, reactive, views, swept, now, bonded, old(pdb.radicals), done);
      if r.Err? {
        SweepTail(pdb, old(pdb.radicals), sweep.radicals, swept, bonded);
        return;
      }
      assert forall j :: 0 <= j <= i ==> ResolvedBy(views[j].chainType, views[j].atoms, reactive, now) by {
        forall j | 0 <= j < i
          ensures ResolvedBy(views[j].chainType, views[j].atoms, reactive, now)
        {
          assert ResolvedBy(views[j].chainType, views[j].atoms, reactive, nowBefore);
        }
      }
    }
    assert views[|bondedChains|..] == [];
    SweepTail(pdb, old(pdb.radicals), sweep.radicals, swept, bonded);
    forall c | c in bondedChains
      ensures ChainResolved(c, reactive)
    {
      var j :| 0 <= j < |bondedChains| && bondedChains[j] == c;
      ResolvedFlags(c, reactive, now, swept);
    }
    return Ok(());
  }

  /** `find_radicals`: `assign_radical` on every chain that took part in a
      committed pair, each once, in the order `ChainsSweep` follows; it
      records the radicals and stops on the error `ChainsSweep` gives. */
  method FindRadicals(pdb: Pdb, reactive: map<string, seq<string>>) returns (r: Outcome)
    modifies pdb, AtomsOf(ChainEnds(pdb.bondedPairs))
    ensures var views := old(Views(DistinctChains(ChainEnds(pdb.bondedPairs))));
            var sweep := ChainsSweep(views, reactive, old(PairedIn(ViewAtoms(views))), old(BondedIn(ViewAtoms(views))));
            (r.Err? <==> sweep.error.Some?) && (r.Err? ==> r.error == sweep.error.value)
            && pdb.radicals == old(pdb.radicals) + sweep.radicals
    ensures r.Err? ==> r.error == KeyError || r.error == IndexError
    ensures r.Ok? ==> forall c :: c in DistinctChains(ChainEnds(old(pdb.bondedPairs))) ==> ChainResolved(c, reactive)
    ensures forall a: Atom :: old(allocated(a)) ==>
              a.isBondedExternal == old(a.isBondedExternal) && (old(a.isPaired) ==> a.isPaired)
    ensures pdb.atoms == old(pdb.atoms) && pdb.chains == old(pdb.chains) && pdb.bondedPairs == old(pdb.bondedPairs)
    ensures pdb.bondedPairsCore == old(pdb.bondedPairsCore) && pdb.bondedPairsSurface == old(pdb.bondedPairsSurface)
    ensures old(pdb.radicals) <= pdb.radicals
    ensures forall k :: |old(pdb.radicals)| <= k < |pdb.radicals| ==> !pdb.radicals[k].isBondedExternal
  {
    ghost var ends := ChainEnds(pdb.bondedPairs);
    ghost var frame := AtomsOf(ends);
    ghost var views := Views(DistinctChains(ends));
    ghost var swept := ViewAtoms(views);
    DistinctChainsMembers(ends);
    var bondedChains := BondedChains(pdb);
    assert bondedChains == DistinctChains(ends);
    assert forall j :: 0 <= j < |views| ==> views[j].atoms.Values <= swept;
    assert swept <= frame by {
      forall a | a in swept
        ensures a in frame
      {
        var v, j :| 0 <= j < |views| && v == views[j] && a in v.atoms.Values;
        assert bondedChains[j] in ends;
      }
    }
    r := SweepChains(pdb, bondedChains, reactive, views, swept, PairedIn(swept), BondedIn(swept));
  }

  /** Concatenation is associative. */
  lemma AppendAssoc(a: seq<Atom>, b: seq<Atom>, c: seq<Atom>)
    ensures a + (b + c) == a + b + c
  {
  }

  /** Radicals drawn from `swept` and outside `bonded`, appended after
      `base`, are not externally bonded. */
  lemma SweepTail(pdb: Pdb, base: seq<Atom>, radicals: seq<Atom>, swept: set<Atom>, bonded: set<Atom>)
    requires pdb.radicals == base + radicals
    requires forall x :: x in radicals ==> x !in bonded && x in swept
    requires forall a :: a in swept ==> (a.isBondedExternal <==> a in bonded)
    ensures base <= pdb.radicals
    ensures forall k :: |base| <= k < |pdb.radicals| ==> !pdb.radicals[k].isBondedExternal
  {
    forall k | |base| <= k < |pdb.radicals|
      ensures !pdb.radicals[k].isBondedExternal
    {
      assert pdb.radicals[k] == radicals[k - |base|];
    }
  }
}
