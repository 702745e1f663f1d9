# LNKD cross-link prediction, modelled in Dafny

LNKD predicts where cross-links form in a polymerised micelle. It reads a
structure in PDB format, picks the reactive atoms named in a two-column input
file, and pairs reactive atoms on different chains that lie within a query
radius. Each candidate pair is scored with a bond potential. A validity rule
gates the score, and an isolatedness bonus favours chains with few bonds. A
greedy loop then commits the best pair while its score stays above 0.001.
After each commit it rescores every candidate that shares a chain number with
the committed pair. The loop's test reads the heap root, so an empty heap
ends it with an `IndexError`.

There are two strategies:

- **Core (polymerization).** A pair is valid when neither atom is bonded and
  the two chains are not yet bonded. A committed pair is recorded as-is.
  After the loop, radical assignment pairs each chain's reactive atoms by
  distance and flags the unbonded partner of a bonded atom as a radical.
- **Surface (cycloaddition).** A pair is valid when neither atom is bonded,
  the two chain types differ and the chains are not yet bonded. A committed
  pair is recorded as two derived pairs, built from each atom's linking
  partner on its own chain.

A separate generator turns a structure and a bond list into PLUMED input:

- centre-of-mass ranges per residue;
- distances to those centres;
- wall and MATHEVAL lines.

The model follows the source file by file:

| Dafny file | module | models |
|---|---|---|
| `molecule.dfy` | `Molecule` | `Atom` and `Chain` classes; fields the engine updates are `var`s |
| `pair.dfy` | `Pairs` | `Pair` class; its probability is updated in place |
| `validation.dfy` | `Validation` | the validity predicates |
| `utils.dfy` | `Utils` | coordinates, the same-chain neighbour filter, squared distance |
| `pdb.dfy` | `PdbStructure` | `Pdb` class: fixed-column parsing, memoised chains, result lists, the pair and radical writers as text |
| `scoring.dfy` | `Isolation` | the isolatedness term and the strategy constants |
| `polymerization.dfy` | `Polymerization` | the core strategy: score, record, radical assignment |
| `cycloaddition.dfy` | `Cycloaddition` | the surface strategy: score, linking partners, record |
| `heap.dfy` | `ProbabilityHeap` | the max-heap behaviour of `heapq` with the inverted `__lt__` |
| `reactive.dfy` | `ReactiveInput` | the reactive-atom dictionary |
| `engine.dfy` | `PredictBonds` | `Engine` class: candidate build, heap, selection loop, rescoring |
| `constrained.dfy` | `ConstrainedDistances` | `get_indices`, `get_pair_data`, `process_lines_pair` |
| `md_utils.dfy` | `MdUtils` | the PLUMED line emitters over an output stream |
| `text.dfy`, `seqs.dfy`, `wrappers.dfy` | | Python string built-ins, sequence helpers, `Result` and `Option` |

Python exceptions are `Err` values of a `Result`, named after the exception:

- `IndexError` when a subscript is past the end of a list or string;
- `KeyError` when a dictionary lookup misses;
- `ValueError` when `int()` or `float()` is given malformed text;
- `UnboundLocalError` when a local is read before assignment;
- `AttributeError` when an attribute is read from `None`.

The selection loop is proved to keep these properties:

- the heap always holds exactly the candidates, with a highest-scoring root;
- every candidate with a bonded atom scores 0;
- the committed pairs are former candidates, each scored above the
  threshold, and no atom is an endpoint of two of them;
- when the loop ends normally, no remaining candidate scores above the
  threshold.

## Model

| member | source | states |
|---|---|---|
| `Molecule.ConvertIfPresent` | pair_prediction/tools/atom.py:59-62 | empty text stays text; other text becomes its `float()` value, or a `ValueError` |
| `Molecule.Atom.constructor` | pair_prediction/tools/atom.py:25-58 | every field is the argument given; record name is "ATOM"; both flags default to false |
| `Molecule.Chain.constructor` | pair_prediction/tools/chain.py:13-23 | id and type as given; empty atom map; no bonded chains |
| `Molecule.Chain.AddAtom` | pair_prediction/tools/chain.py:32-38 | the atom is stored under its name, replacing an earlier atom of that name; bonded chains unchanged |
| `Molecule.Chain.AddBondedChain` | pair_prediction/tools/chain.py:40-46 | the chain is appended; duplicates are kept; atoms unchanged |
| `Molecule.ChainInAppend` | pair_prediction/tools/constraint_validation.py:14-24 | appending to a bonded-chain list keeps every earlier chain-id membership |
| `Pairs.Pair.constructor` | pair_prediction/tools/pair.py:15-28 | atoms and distance as given; chains are the atoms' chains; probability is 0 |
| `Pairs.Pair.SetProbability` | pair_prediction/tools/pair.py:30-36 | the probability becomes the argument |
| `Pairs.Pair.GetChainBranchingPairs` | pair_prediction/tools/pair.py:49-62 | exactly the given pairs that share a residue sequence number with this pair, in their order |
| `Pairs.Pair.GetAtomBranchingPairs` | pair_prediction/tools/pair.py:82-95 | exactly the given pairs that share an atom (by serial) with this pair, in their order |
| `Pairs.Pair.BondPair` | pair_prediction/tools/pair.py:113-123 | each chain records the other (a self-bonded chain twice); both atoms become bonded; atom maps and paired flags unchanged |
| `Pairs.IsSameChainSymmetric` | pair_prediction/tools/pair.py:64-80 | sharing a chain number is symmetric |
| `Pairs.IsSameChainReflexive` | pair_prediction/tools/pair.py:64-80 | every pair shares a chain with itself, so a committed pair is among its own branching pairs |
| `Pairs.AreAtomsMatchingSymmetric` | pair_prediction/tools/pair.py:97-111 | sharing an atom is reflexive and symmetric |
| `Validation.LN2RefinesSurface` | pair_prediction/tools/constraint_validation.py:53-80 | LN2 surface validity is exactly surface validity plus "chains not bonded" |
| `Validation.ValidityAntiMonotone` | pair_prediction/tools/constraint_validation.py:1-94 | setting bonded flags and appending bonded chains never makes an invalid pair valid, under all three rules |
| `Utils.AtomsToCoords` | pair_prediction/tools/utils.py:7-19 | one row per atom, holding that atom's coordinates |
| `Utils.SquaredDistance` | pair_prediction/tools/utils.py:57-69 | never negative |
| `Utils.DistanceOrder` | pair_prediction/tools/utils.py:57-69 | for non-negative roots of two squared distances (what `calc_distance` returns), the roots compare, by `<=` and by `==`, exactly as the squares do |
| `Utils.SquareMonotone` | pair_prediction/tools/utils.py:57-69 | squaring is strictly increasing on the non-negative reals |
| `Utils.RemoveFirstAndChain` | pair_prediction/tools/utils.py:22-54 | per query row: exactly the neighbours on another chain, each with its own distance, in query order |
| `Utils.KeptNeighboursOnOtherChains` | pair_prediction/tools/utils.py:44-49 | a kept neighbour is never the query atom and never on the query atom's chain |
| `Text.SliceContents` | pair_prediction/tools/pdb.py:162-193 | Python slicing clamps both bounds to the length and keeps the characters in order |
| `Text.StripTrims` | pair_prediction/tools/pdb.py:162-193 | `strip` leaves no whitespace at either end and keeps a contiguous middle |
| `Text.StripFramed` | pair_prediction/tools/pdb.py:181-185 | stripping whitespace-padded text gives back the text |
| `Text.SplitWhitespace` | pair_prediction/tools/predict_bonds.py:88-91 | `split()` gives non-empty words without whitespace |
| `Text.TakeWordOf` | pair_prediction/tools/predict_bonds.py:88-91 | the first word is the whole whitespace-free prefix that ends at whitespace or at the end |
| `Text.SplitWhitespaceFront` | pair_prediction/tools/predict_bonds.py:88-91 | a leading word ended by whitespace or the end is the first word `split()` gives; the rest are those of the remainder |
| `Text.SplitWhitespaceSpace` | pair_prediction/tools/predict_bonds.py:88-91 | a leading whitespace character does not change the words |
| `Text.SplitWhitespaceJoin` | pair_prediction/tools/predict_bonds.py:88-91 | `split()` of non-empty whitespace-free words joined by spaces gives back exactly those words, in order |
| `Text.SplitOn` | constraining_pairs/constrained_distances.py:52-53 | `split(sep)` gives at least one part; no part holds the separator |
| `Text.JoinSplitOn` | constraining_pairs/constrained_distances.py:52-54 | joining the parts of a split restores the text |
| `Text.SplitOnJoin` | constraining_pairs/constrained_distances.py:52-54 | splitting separator-free parts joined by the separator gives back the parts |
| `Text.ShowInt` | pair_prediction/tools/pdb.py:59-60 | `str(n)` is the canonical decimal form: a leading `-` exactly when `n < 0`, then digits only, with no leading zero except in `"0"` |
| `Text.Pad2` | constraining_pairs/md_utils.py:12 | `f"{n:02}"` has at least two characters, all digits |
| `Text.ParseInt` | pair_prediction/tools/pdb.py:181-185 | `int()` of text fails only with `ValueError` |
| `Text.ParseDigits` | pair_prediction/tools/pdb.py:181-185 | `int()` of a digit run is its decimal value |
| `Text.ParseNegative` | pair_prediction/tools/pdb.py:181-185 | `int()` of a minus sign and a digit run is the negated value |
| `Text.ParseShowInt` | pair_prediction/tools/pdb.py:59-60 | `int(str(n)) == n` for every integer |
| `Text.ParsePad2` | constraining_pairs/md_utils.py:12 | `int(f"{n:02}") == n` |
| `Text.Pad2Injective` | constraining_pairs/md_utils.py:12 | distinct numbers get distinct zero-padded labels |
| `Seqs.Filter` | pair_prediction/tools/pair.py:58-62 | the kept elements are elements that pass the test, and every element that passes is kept |
| `PdbStructure.ParseAtomFields` | pair_prediction/tools/pdb.py:187-208 | the record carries the serial and residue number already parsed |
| `PdbStructure.ParseAtomLineHeader` | pair_prediction/tools/pdb.py:181-185 | a bad serial or residue number fails the line; a parsed record carries both values |
| `PdbStructure.RightJustifiedColumn` | pair_prediction/tools/pdb.py:181-185 | a right-justified integer column reads back as that integer |
| `PdbStructure.AtomLineColumns` | pair_prediction/tools/pdb.py:181-193 | for well-formed integer columns: the line fails exactly when a coordinate, occupancy or temperature factor fails to convert |
| `PdbStructure.RecordsConcat` | pair_prediction/tools/pdb.py:210 | the records of appended atoms are the appended records |
| `PdbStructure.ParseAllStep` | pair_prediction/tools/pdb.py:33-36 | one more line extends the parse by that line's contribution, or fails it |
| `PdbStructure.ParseAllCharacterised` | pair_prediction/tools/pdb.py:28-36 | the parse succeeds exactly when every ATOM line parses |
| `PdbStructure.ParseAllCount` | pair_prediction/tools/pdb.py:33-36 | a successful parse yields one record per line starting with "ATOM" |
| `PdbStructure.ParseAllPrefix` | pair_prediction/tools/pdb.py:33-36 | a failure in a prefix of the lines fails the whole parse |
| `PdbStructure.Pdb.constructor` | pair_prediction/tools/pdb.py:18-26 | an empty, consistent structure with empty result lists |
| `PdbStructure.Pdb.AssignChain` | pair_prediction/tools/pdb.py:150-169 | a bad residue number is a `ValueError`; otherwise the chain stored under the number, created with the three-column residue name when missing; other keys untouched |
| `PdbStructure.Pdb.AssignAtom` | pair_prediction/tools/pdb.py:171-210 | succeeds exactly when the line's fields convert; the atom holds them, joins its chain's map and is appended; on failure nothing is appended |
| `PdbStructure.Pdb.Insert` | pair_prediction/tools/pdb.py:209-210 | the atom enters its chain's map under its name and the atom list; consistency kept |
| `PdbStructure.Pdb.ParseLine` | pair_prediction/tools/pdb.py:34-36 | a non-ATOM line changes nothing; an ATOM line is assigned; succeeds exactly when the line's contribution parses |
| `PdbStructure.Pdb.ParseNext` | pair_prediction/tools/pdb.py:34-36 | one loop pass extends the atoms by the records of the parse so far plus this line, or fails the whole parse |
| `PdbStructure.Pdb.Parse` | pair_prediction/tools/pdb.py:28-36 | succeeds exactly when every ATOM line parses; the appended atoms describe the parsed records in file order; result lists untouched |
| `PdbStructure.Pdb.Load` | pair_prediction/tools/pdb.py:18-26 | a fresh, consistent structure exactly when the file parses, else `ValueError` |
| `PdbStructure.Pdb.AddBondedPair` | pair_prediction/tools/pdb.py:90-96 | appends to the bonded pairs; nothing else changes |
| `PdbStructure.Pdb.AddCoreBondedPair` | pair_prediction/tools/pdb.py:98-104 | appends to the core pairs; nothing else changes |
| `PdbStructure.Pdb.AddSurfaceBondedPair` | pair_prediction/tools/pdb.py:106-112 | appends to the surface pairs; nothing else changes |
| `PdbStructure.Pdb.AddRadical` | pair_prediction/tools/pdb.py:114-120 | appends to the radicals; nothing else changes |
| `PdbStructure.ColumnedPairsJoin` | pair_prediction/tools/pdb.py:50-60 | the columned text is the pair lines joined by newlines, with a final newline |
| `PdbStructure.ColumnedPairsLines` | pair_prediction/tools/pdb.py:50-60 | the columned text splits at newlines into one line per pair, in order |
| `PdbStructure.ColumnedLineReadBack` | pair_prediction/tools/pdb.py:59-60 | each columned line splits into the two serials, which read back with `int()` |
| `PdbStructure.RadicalsFileJoin` | pair_prediction/tools/pdb.py:78-88 | the radicals text is the serial lines joined by newlines, with a final newline |
| `PdbStructure.RadicalsFileLines` | pair_prediction/tools/pdb.py:78-88 | the radicals text splits at newlines into one serial per radical, in order |
| `PdbStructure.RadicalLineReadBack` | pair_prediction/tools/pdb.py:87-88 | each radical line reads back as the radical's serial |
| `PdbStructure.PymolPairsJoin` | pair_prediction/tools/pdb.py:38-48 | the pymol text is an empty field and then every pair's two serials, joined by `+` |
| `PdbStructure.PymolPairsFields` | pair_prediction/tools/pdb.py:38-48 | the pymol text splits at `+` into an empty field and then every pair's two serials, in order |
| `Isolation.ChainEnds` | pair_prediction/predict_polymerization.py:37-41 | two chain endpoints per committed pair |
| `Isolation.ChainEndsAt` | pair_prediction/predict_polymerization.py:37-41 | pair i's chains sit at positions 2i and 2i+1 |
| `Isolation.ChainCount` | pair_prediction/predict_polymerization.py:43-44 | `list.count` under chain-id equality: at most the length; positive exactly on membership |
| `Isolation.IsolatednessBounds` | pair_prediction/predict_polymerization.py:36-48 | 8 with no committed pair; otherwise between 8 − 4n and 6 |
| `Isolation.IsolatednessSingle` | pair_prediction/predict_polymerization.py:36-48 | after one commit across two chains the isolatedness is 6 |
| `Isolation.ComputeIsolatedness` | pair_prediction/predict_polymerization.py:36-48 | the loop and counts compute `Isolatedness`, which looks only at the last committed pair's chains |
| `Polymerization.CalculateBondPotential` | pair_prediction/predict_polymerization.py:31-56 | 0 for a pair that is not core-valid; otherwise the potential at distance, 3.0, 2.5², weight, isolatedness of the core pairs, and 8 |
| `Polymerization.CoreScoreIgnoresCandidateChains` | pair_prediction/predict_polymerization.py:36-48 | two valid candidates at the same distance score the same, whatever their chains |
| `Polymerization.AddPairPdb` | pair_prediction/predict_polymerization.py:58-60 | the pair is appended to the bonded and the core lists; nothing else changes |
| `Polymerization.InsertByKeyPermutes` | pair_prediction/predict_polymerization.py:96 | insertion keeps the entries and adds one, as multisets |
| `Polymerization.SortByKeyPermutes` | pair_prediction/predict_polymerization.py:96 | the stable sort is a permutation of the entries |
| `Polymerization.InsertByKeySorted` | pair_prediction/predict_polymerization.py:96 | insertion into a sorted list keeps it sorted by distance |
| `Polymerization.SortByKeySorted` | pair_prediction/predict_polymerization.py:96 | the sort orders the entries by distance |
| `Polymerization.SortByKeyStable` | pair_prediction/predict_polymerization.py:96 | the sort is stable: the entries at any one distance keep their input order |
| `Polymerization.UnpairedDistances` | pair_prediction/predict_polymerization.py:89-94 | each entry is an unpaired atom of the list with its distance from the current atom |
| `Polymerization.SecondNearest` | pair_prediction/predict_polymerization.py:89-100 | `IndexError` with fewer than two unpaired atoms; otherwise the rank-1 entry of the distance-sorted unpaired atoms |
| `Polymerization.SecondNearestMember` | pair_prediction/predict_polymerization.py:98-100 | the partner is one of the chain's reactive atoms |
| `Polymerization.SecondNearestIsNearestOther` | pair_prediction/predict_polymerization.py:96-100 | the partner is unpaired, no nearer than rank 0 and no farther than any other entry |
| `Polymerization.UnpairedDistancesLocal` | pair_prediction/predict_polymerization.py:89-94 | only the paired flags of the listed atoms decide the entries |
| `Polymerization.PassAtomsMembers` | pair_prediction/predict_polymerization.py:108-109 | an atom is paired by the passes exactly when it is one of the two atoms of a pass |
| `Polymerization.RadicalsOfSound` | pair_prediction/predict_polymerization.py:101-106 | every recorded radical is unbonded, and the other atom of its pass is externally bonded |
| `Polymerization.RadicalsOfComplete` | pair_prediction/predict_polymerization.py:101-106 | every pass with exactly one externally bonded atom records the other atom |
| `Polymerization.RadicalsOfSnoc` | pair_prediction/predict_polymerization.py:101-106 | one more pass appends exactly that pass's radical, if any |
| `Polymerization.RadicalsOfLocal` | pair_prediction/predict_polymerization.py:101-106 | only the bonded flags of the pass atoms decide the radicals |
| `Polymerization.RadicalsOfMembers` | pair_prediction/predict_polymerization.py:101-106 | every radical is an atom of some pass and is not externally bonded |
| `Polymerization.PassesLocal` | pair_prediction/predict_polymerization.py:85-109 | only the paired flags of the listed atoms decide the passes |
| `Polymerization.PassesMembers` | pair_prediction/predict_polymerization.py:85-109 | both atoms of every pass are listed atoms that were unpaired when the loop began |
| `Polymerization.PassAtomsIn` | pair_prediction/predict_polymerization.py:85-109 | every atom the passes pair is a listed atom that was unpaired when the loop began |
| `Polymerization.PassesPairEvery` | pair_prediction/predict_polymerization.py:85-109 | a run that does not fail leaves every atom from its start position paired |
| `Polymerization.PassesStep` | pair_prediction/predict_polymerization.py:96-109 | a pass that finds its partner is the next pass, and both its atoms join the paired set |
| `Polymerization.BetweenSkip` | pair_prediction/predict_polymerization.py:86-87 | an atom already paired is skipped without a pass |
| `Polymerization.BetweenFail` | pair_prediction/predict_polymerization.py:96-98 | fewer than two unpaired atoms end the run as failed, after the passes already taken |
| `Polymerization.BetweenStep` | pair_prediction/predict_polymerization.py:96-109 | a pass that finds its partner keeps the loop in step with the run |
| `Polymerization.TakePass` | pair_prediction/predict_polymerization.py:88-109 | one pass takes the partner the run takes, records its radical and pairs both atoms; with fewer than two unpaired atoms it is an `IndexError`, the run fails there, and nothing changes |
| `Polymerization.PairStep` | pair_prediction/predict_polymerization.py:85-109 | one loop turn: an atom already paired is skipped, any other takes its pass |
| `Polymerization.ResolvePair` | pair_prediction/predict_polymerization.py:101-109 | exactly one bonded atom → the other becomes a radical; otherwise none; both become paired; bonded flags unchanged |
| `Polymerization.CollectAtoms` | pair_prediction/predict_polymerization.py:78-83 | succeeds exactly when every name is in the chain's map; yields the mapped atoms in name order; else `KeyError` |
| `Polymerization.NamedAtoms` | pair_prediction/predict_polymerization.py:78-83 | one atom per name, the one mapped under it, in name order |
| `Polymerization.Views` | pair_prediction/predict_polymerization.py:72-73 | one view per chain, holding its type and atom map, in order |
| `Polymerization.ResolvedFlags` | pair_prediction/predict_polymerization.py:85-109 | where the paired flags match a set, resolution by that set is resolution by the flags |
| `Polymerization.PassesOfChain` | pair_prediction/predict_polymerization.py:78-109 | the passes over a chain's reactive atoms depend only on those atoms' flags and pair no other atom of the chain |
| `Polymerization.AssignRadical` | pair_prediction/predict_polymerization.py:75-109 | missing type or name → `KeyError` before any change; otherwise it fails exactly when the run `Passes` describes fails (`IndexError`), appends exactly the radicals `RadicalsOf` gives, and an atom of the chain ends paired exactly when it was paired or a pass paired it; on success the chain is resolved |
| `Polymerization.PassesTail` | pair_prediction/predict_polymerization.py:101-106 | the radicals appended by the passes are listed atoms that are not externally bonded |
| `Polymerization.PairAtoms` | pair_prediction/predict_polymerization.py:85-109 | takes exactly the passes `Passes` describes from the flags on entry: fails exactly when that run fails (`IndexError`), appends exactly `RadicalsOf` of the passes, and an atom ends paired exactly when it was or a pass paired it; on success every atom is paired; bonded flags unchanged |
| `Polymerization.DistinctChainsMembers` | pair_prediction/predict_polymerization.py:66-70 | the deduplicated chains are chains of the list |
| `Polymerization.DistinctChainsCover` | pair_prediction/predict_polymerization.py:66-70 | every chain of the list has its id among the deduplicated chains |
| `Polymerization.DistinctChainsUnique` | pair_prediction/predict_polymerization.py:66-70 | no chain id occurs twice among the deduplicated chains |
| `Polymerization.BondedChains` | pair_prediction/predict_polymerization.py:66-70 | the set-building loop yields the distinct chains of the committed pairs' endpoints |
| `Polymerization.DistinctChainsSnoc` | pair_prediction/predict_polymerization.py:66-70 | one more chain joins the distinct chains exactly when its id is new |
| `Polymerization.ChainsSweepSound` | pair_prediction/predict_polymerization.py:72-109 | every radical `find_radicals` records is an atom of one of the chains and is not externally bonded |
| `Polymerization.ChainsSweepAt` | pair_prediction/predict_polymerization.py:72-73 | the sweep from the i-th chain is that chain's passes, then the sweep of the chains after it from the atoms then paired |
| `Polymerization.SweepChain` | pair_prediction/predict_polymerization.py:72-73 | `assign_radical` on one chain: `KeyError` with nothing recorded when a name is missing; otherwise the radicals and paired atoms of that chain's run, failing exactly when the run fails |
| `Polymerization.SweepStep` | pair_prediction/predict_polymerization.py:72-73 | the i-th loop turn keeps the recorded radicals plus the remaining sweep equal to the whole sweep, and stops on the sweep's error |
| `Polymerization.SweepChains` | pair_prediction/predict_polymerization.py:72-73 | the loop records exactly the radicals of the sweep over the chains and fails exactly with the sweep's error; on success every chain is resolved |
| `Polymerization.SweepTail` | pair_prediction/predict_polymerization.py:101-106 | radicals drawn from unbonded atoms leave every new radical not externally bonded |
| `Polymerization.FindRadicals` | pair_prediction/predict_polymerization.py:63-73 | fails exactly when the sweep over the distinct chains of the committed pairs stops, with its error; appends exactly the sweep's radicals; on success every chain of a committed pair is resolved; new radicals are unbonded; bonded flags unchanged |
| `Cycloaddition.CalculateBondPotential` | pair_prediction/predict_cycloaddition.py:36-58 | 0 for a pair that is not LN2-surface-valid; otherwise the potential with the isolatedness of the surface pairs |
| `Cycloaddition.SurfaceScoreIgnoresCandidateChains` | pair_prediction/predict_cycloaddition.py:41-53 | two valid candidates at the same distance score the same, whatever their chains |
| `Cycloaddition.LinkingKey` | pair_prediction/predict_cycloaddition.py:84-101 | no key exactly for elements other than C and N; errors are `IndexError` (short name) or `UnboundLocalError` (other nitrogen digit) |
| `Cycloaddition.LinkingKeyValues` | pair_prediction/predict_cycloaddition.py:86-105 | the keys are `C?2` for a carbon `C?…`, `N4` for `N6…` and `N1` for `N3…` |
| `Cycloaddition.FindLinkingPair` | pair_prediction/predict_cycloaddition.py:84-110 | `None` exactly when there is no key; a missing key is a `KeyError`; a partner comes from the atom's chain |
| `Cycloaddition.LinkingPartnerOnSameChain` | pair_prediction/predict_cycloaddition.py:103-110 | on a consistent chain the partner lies on the atom's own chain and is named by the key |
| `Cycloaddition.GetLinkingPairs` | pair_prediction/predict_cycloaddition.py:72-82 | lookup errors in order; a `None` partner → `AttributeError`; otherwise two fresh pairs at distance 0: (a, partner of b) and (b, partner of a), on the original chains |
| `Cycloaddition.AddPairPdb` | pair_prediction/predict_cycloaddition.py:61-67 | on failure nothing changes; otherwise the two linking pairs are appended, in order, to the bonded and the surface lists |
| `ProbabilityHeap.PushSpec` | pair_prediction/tools/predict_bonds.py:204 | a push adds the pair and keeps a highest-probability root |
| `ProbabilityHeap.Heapify` | pair_prediction/tools/predict_bonds.py:196-205 | the heap has the candidates' length and holds only candidates |
| `ProbabilityHeap.HeapifySpec` | pair_prediction/tools/predict_bonds.py:196-205 | pushing every candidate gives a permutation of them with a highest-probability root |
| `ProbabilityHeap.MaxIndex` | pair_prediction/tools/predict_bonds.py:191 | an index of highest probability |
| `ProbabilityHeap.PopSpec` | pair_prediction/tools/predict_bonds.py:191 | a pop removes the root once and leaves a highest-probability root |
| `ProbabilityHeap.MoveToFront` | pair_prediction/tools/predict_bonds.py:191 | moving a maximum to the front permutes the list and roots it at a maximum |
| `ProbabilityHeap.Remove` | pair_prediction/tools/predict_bonds.py:192 | `list.remove` fails with `ValueError` exactly when no element equals the pair by distance |
| `ProbabilityHeap.RemoveAt` | pair_prediction/tools/predict_bonds.py:192 | with distinct distances, removing element k drops exactly position k |
| `ProbabilityHeap.RemoveMember` | pair_prediction/tools/predict_bonds.py:192 | removing a member succeeds, removes it once, keeps distances distinct, and leaves it absent |
| `ProbabilityHeap.DropIndex` | pair_prediction/tools/predict_bonds.py:192 | dropping a position removes that element once and keeps distances distinct |
| `ReactiveInput.ReactiveEntriesOk` | pair_prediction/tools/predict_bonds.py:87-91 | reading succeeds exactly when every line has two columns; else `IndexError` |
| `ReactiveInput.ReactiveEntriesKeys` | pair_prediction/tools/predict_bonds.py:93-94 | a residue name is a key exactly when some line names it in column 2 |
| `ReactiveInput.KeyLine` | pair_prediction/tools/predict_bonds.py:93-94 | every key of the dictionary is the second column of some line |
| `ReactiveInput.LineKey` | pair_prediction/tools/predict_bonds.py:93-94 | the second column of every line is a key of the dictionary |
| `ReactiveInput.ReactiveEntriesValues` | pair_prediction/tools/predict_bonds.py:93-96 | a key's value is the column-1 names of its lines, in file order, duplicates kept |
| `ReactiveInput.NamesForAbsent` | pair_prediction/tools/predict_bonds.py:93-96 | a residue named on no line collects no names |
| `ReactiveInput.GetReactiveStrRepresentation` | pair_prediction/tools/predict_bonds.py:74-97 | the loop builds the dictionary the lines describe |
| `PredictBonds.DedupeSpec` | pair_prediction/tools/predict_bonds.py:219-236 | the set of pairs keeps candidates only, no two at one distance, and every candidate distance is represented |
| `PredictBonds.Engine.constructor` | pair_prediction/tools/predict_bonds.py:23-37 | the configuration as given; the structure's atoms; empty reactive atoms, candidates and heap |
| `PredictBonds.Engine.BondedScoresZero` | pair_prediction/predict_polymerization.py:31-34 | under both strategies a pair with a bonded atom scores 0 |
| `PredictBonds.Engine.CalculateBondPotential` | pair_prediction/tools/predict_bonds.py:40-54 | the score of the engine's strategy |
| `PredictBonds.Engine.AddPairPdb` | pair_prediction/tools/predict_bonds.py:56-63 | core: the pair is appended to the bonded and core lists; surface: fails, changing nothing, exactly when an atom has no linking partner or its lookup fails; otherwise the partner pairs of atom1 then atom2 are appended to the bonded and surface lists; radicals, atoms and chains unchanged |
| `PredictBonds.Engine.FindRadicals` | pair_prediction/tools/predict_bonds.py:65-72 | surface: nothing changes; core: the radicals of the sweep over the committed pairs' chains are appended, failing exactly with the sweep's `KeyError` or `IndexError`; on success every such chain is resolved |
| `PredictBonds.Engine.InitReactiveAtoms` | pair_prediction/tools/predict_bonds.py:161-169 | appends, in structure order, exactly the atoms listed under the first three letters of their residue name |
| `PredictBonds.Engine.RecalProbabilityMap` | pair_prediction/tools/predict_bonds.py:171-181 | every listed pair gets its current score |
| `PredictBonds.Engine.InitProbHeap` | pair_prediction/tools/predict_bonds.py:196-205 | the candidates pushed in order: a permutation of them with a highest-probability root |
| `PredictBonds.Engine.PopRoot` | pair_prediction/tools/predict_bonds.py:191-192 | the root leaves the heap and the candidates once; it scored at least as high as every candidate; heap and candidates still match |
| `PredictBonds.Engine.PopBest` | pair_prediction/tools/predict_bonds.py:191-192 | the popped root scores at least as high as every candidate; popping it as `PopRoot` does keeps every committed pair's atoms bonded and every bonded candidate at score 0 |
| `PredictBonds.Engine.SelectHighestProbabilityPair` | pair_prediction/tools/predict_bonds.py:183-194 | pops the candidate that scores highest, removes it, commits it with both atoms bonded; heap still matches; bonded candidates score 0 except those sharing a chain number with it |
| `PredictBonds.Engine.CommitPair` | pair_prediction/tools/predict_bonds.py:193 | both atoms become bonded; only candidates sharing a chain number with the pair can newly have a bonded atom |
| `PredictBonds.Engine.RowCandidatesScored` | pair_prediction/tools/predict_bonds.py:223-235 | every candidate of a row is a reactive pair holding its current, positive score |
| `PredictBonds.Engine.AllCandidatesScored` | pair_prediction/tools/predict_bonds.py:221-235 | every candidate is a reactive pair holding its current, positive score |
| `PredictBonds.Engine.RowCandidatesComplete` | pair_prediction/tools/predict_bonds.py:223-235 | every neighbour of a row scoring above 0 is a candidate |
| `PredictBonds.Engine.AllCandidatesComplete` | pair_prediction/tools/predict_bonds.py:221-235 | every neighbour in the query result scoring above 0 is a candidate |
| `PredictBonds.Engine.InitializePotentialPairs` | pair_prediction/tools/predict_bonds.py:207-236 | fresh pairs matching the deduplicated candidates; distinct distances; reactive atoms; current, positive scores |
| `PredictBonds.Engine.AddRowPairs` | pair_prediction/tools/predict_bonds.py:223-235 | the inner loop adds the row's candidates, deduplicated |
| `PredictBonds.Engine.AddRowPair` | pair_prediction/tools/predict_bonds.py:224-235 | one inner-loop turn adds the neighbour's candidate when its score is positive, deduplicated by distance |
| `PredictBonds.Engine.AddPair` | pair_prediction/tools/predict_bonds.py:232-235 | `set.add`: a new pair is added unless one at its distance is held |
| `PredictBonds.Engine.CandidatePairs` | pair_prediction/tools/predict_bonds.py:219-236 | pairs built from the deduplicated candidates have distinct distances and current, positive scores |
| `PredictBonds.Engine.BondSelectionLoop` | pair_prediction/tools/predict_bonds.py:238-262 | on normal end, no candidate scores above 0.001; an empty heap is `IndexError`; committed pairs are former candidates above 0.001, their atoms bonded, no atom used twice; core records every committed pair; surface records the linking pairs of every committed pair, in order, except a last one whose lookup failed; each round's committed pair scored highest among the candidates left at that round's start (`GreedyRounds`) |
| `PredictBonds.Engine.SelectionRound` | pair_prediction/tools/predict_bonds.py:248-262 | one loop pass keeps the loop invariants, shrinks the candidates, commits the heap's root, and records the committed pair as its strategy does |
| `PredictBonds.Engine.SelectionRounds` | pair_prediction/tools/predict_bonds.py:248-262 | the rounds run until the heap's root no longer scores above 0.001 or a round fails; the core strategy never fails a round; what was committed, recorded and chosen from is bundled as `Progress` |
| `PredictBonds.Engine.GreedyRound` | pair_prediction/tools/predict_bonds.py:248-262 | one loop pass extends the greedy record by the scores the round chose from, the committed pair highest among them, and extends the surface records by the pair unless its lookup failed |
| `PredictBonds.Engine.Snapshot` | pair_prediction/tools/predict_bonds.py:248-251 | the scores at a round's start cover exactly the candidates not yet committed, and the heap's root scores highest among them |
| `PredictBonds.GreedyRoundsStep` | pair_prediction/tools/predict_bonds.py:248-251 | committing the best of the candidates left extends the greedy record by one round |
| `PredictBonds.Remaining` | pair_prediction/tools/predict_bonds.py:191-192 | after the committed pairs are removed, a pair is left exactly when it was a candidate and has not been committed |
| `PredictBonds.Engine.SelectionStep` | pair_prediction/tools/predict_bonds.py:250-262 | commits the root (above the threshold and highest of the candidates), removes it once, keeps the heap matching, restores "bonded candidates score 0", and records the root as the strategy does |
| `PredictBonds.Engine.SelectAndRecord` | pair_prediction/tools/predict_bonds.py:251-252 | select then record: the committed root scores highest of the candidates and is removed once; no atom is an endpoint twice; the root is recorded as the strategy does |
| `PredictBonds.Engine.RecordPair` | pair_prediction/tools/predict_bonds.py:252 | recording touches only the structure: heap matching, bonded flags and the zero-score property are kept; core appends the pair, surface its linking pairs |
| `PredictBonds.SurfaceLogStep` | pair_prediction/tools/predict_bonds.py:248-252 | a round that records its pair, or nothing, extends the surface records to match |
| `PredictBonds.SurfaceLogAppend` | pair_prediction/tools/predict_bonds.py:248-252 | two stretches of surface records make one, their pairs in order |
| `PredictBonds.Engine.RootIsBest` | pair_prediction/tools/predict_bonds.py:248 | the root scores highest, and a positive root has no bonded atom |
| `PredictBonds.Engine.Rescore` | pair_prediction/tools/predict_bonds.py:254-262 | the heap is rebuilt exactly when some candidate shares a chain number with the committed pair; bonded candidates then score 0 |
| `PredictBonds.Engine.RebuildIfRescored` | pair_prediction/tools/predict_bonds.py:261-262 | the heap is rebuilt exactly when some candidate was rescored, and otherwise left as it was; it matches the candidates either way and no score or bonded flag changes |
| `PredictBonds.Engine.RebuildHeap` | pair_prediction/tools/predict_bonds.py:261-262 | the heap is rebuilt from the current candidates and matches them |
| `PredictBonds.Engine.RescoreBranching` | pair_prediction/tools/predict_bonds.py:255-259 | exactly the candidates sharing a chain number get their current score; the rest keep theirs; bonded candidates score 0 |
| `PredictBonds.PopFacts` | pair_prediction/tools/predict_bonds.py:191-192 | after pop and remove: the heap matches the list, the root is gone, distances stay distinct |
| `PredictBonds.FirstCommitOfAtoms` | pair_prediction/tools/predict_bonds.py:248-252 | committing a pair of unbonded atoms keeps every atom in at most one committed pair |
| `ConstrainedDistances.Entries` | constraining_pairs/constrained_distances.py:83-91 | records are numbered 1, 2, … over ATOM lines; a short ATOM line is `IndexError` |
| `ConstrainedDistances.EntriesOk` | constraining_pairs/constrained_distances.py:86-91 | reading succeeds exactly when every ATOM line has five columns |
| `ConstrainedDistances.EntriesCount` | constraining_pairs/constrained_distances.py:86-87 | one record per ATOM line |
| `ConstrainedDistances.Runs` | constraining_pairs/constrained_distances.py:98-107 | the first range starts at the first record and the last ends at the last |
| `ConstrainedDistances.GetIndices` | constraining_pairs/constrained_distances.py:76-109 | the loop computes the three lists the records define |
| `ConstrainedDistances.RecordAppended` | constraining_pairs/constrained_distances.py:92-104 | one more record extends the C6, nitrogen and range lists as its residue and atom name say |
| `ConstrainedDistances.OpenRangeStep` | constraining_pairs/constrained_distances.py:98-104 | a new residue number closes the open range and opens one; the same number extends it |
| `ConstrainedDistances.FilterIncreasing` | constraining_pairs/constrained_distances.py:92-98 | filtering records keeps their numbers increasing |
| `ConstrainedDistances.RunsOrdered` | constraining_pairs/constrained_distances.py:98-107 | the ranges are non-empty, increasing and disjoint |
| `ConstrainedDistances.RunIndexCovers` | constraining_pairs/constrained_distances.py:98-107 | each range record lies inside its own range |
| `ConstrainedDistances.RunsCover` | constraining_pairs/constrained_distances.py:98-107 | every range record lies inside a range |
| `ConstrainedDistances.RunsCount` | constraining_pairs/constrained_distances.py:99-103 | one range at the first record and one per change of residue number |
| `ConstrainedDistances.RangesSpec` | constraining_pairs/constrained_distances.py:98-107 | the ranges are ordered, disjoint, cover every range record, and number one more than the changes |
| `ConstrainedDistances.RangesEmpty` | constraining_pairs/constrained_distances.py:106-107 | no ranges exactly when there is no DVO, DVM, DVP or template record |
| `ConstrainedDistances.IndicesRanges` | constraining_pairs/constrained_distances.py:76-109 | the returned ranges are ordered and disjoint, and empty exactly without range records |
| `ConstrainedDistances.NitrogenAt` | constraining_pairs/constrained_distances.py:95-96 | each nitrogen number names a surfactant N record |
| `ConstrainedDistances.NitrogenSound` | constraining_pairs/constrained_distances.py:95-96 | the nitrogen numbers name surfactant N records, strictly increasing |
| `ConstrainedDistances.NitrogenComplete` | constraining_pairs/constrained_distances.py:92-96 | every surfactant N record's number is listed |
| `ConstrainedDistances.C6At` | constraining_pairs/constrained_distances.py:93-94 | each C6 string is the number of a surfactant C6 record |
| `ConstrainedDistances.C6Sound` | constraining_pairs/constrained_distances.py:93-94 | each C6 string reads back with `int()` as a surfactant C6 record's number |
| `ConstrainedDistances.C6Complete` | constraining_pairs/constrained_distances.py:93-94 | every surfactant C6 record's number is listed |
| `ConstrainedDistances.ProcessLinesPair` | constraining_pairs/constrained_distances.py:50-56 | at least two fields, which split into one part per line; each part, joined by spaces, gives its line back |
| `ConstrainedDistances.GetPairData` | constraining_pairs/constrained_distances.py:38-48 | `IndexError` exactly for an odd line count; else one field list per line pair, each line stripped |
| `ConstrainedDistances.StripLine` | constraining_pairs/constrained_distances.py:43-44 | stripping a written bond-list line removes only its newline |
| `ConstrainedDistances.ProcessLinesPairRoundTrip` | constraining_pairs/constrained_distances.py:50-56 | reading two written lines back gives the first line's fields, then the second's |
| `MdUtils.OutputStream.constructor` | constraining_pairs/constrained_distances.py:115 | a newly opened output holds nothing |
| `MdUtils.OutputStream.Write` | constraining_pairs/md_utils.py:24-26 | a write appends its text |
| `MdUtils.WriteStartEndIdx` | constraining_pairs/md_utils.py:6-12 | appends one centre-of-mass line per range, in order, labelled `TEMPL` then `DVB01`, `DVB02`, … |
| `MdUtils.WriteDistanceOfRanges` | constraining_pairs/md_utils.py:15-20 | appends one distance line per range, in order, to the same labels |
| `MdUtils.RangeLabelsDistinct` | constraining_pairs/md_utils.py:8-12 | distinct ranges get distinct labels |
| `MdUtils.DvbLabelsDistinct` | constraining_pairs/md_utils.py:12 | distinct numbers give distinct `DVB` labels |
| `MdUtils.DvbLabelNotTemplate` | constraining_pairs/md_utils.py:10-12 | no `DVB` label is `TEMPL` |
| `MdUtils.LabelsAgree` | constraining_pairs/md_utils.py:6-20 | range i's centre-of-mass line defines the label that its distance line refers to |
| `MdUtils.WriteUpperWall` | constraining_pairs/md_utils.py:23-26 | appends one `UPPER_WALLS` line |
| `MdUtils.WriteLowerWall` | constraining_pairs/md_utils.py:29-32 | appends one `LOWER_WALLS` line |
| `MdUtils.WriteMatheval` | constraining_pairs/md_utils.py:46-49 | appends one `MATHEVAL` line |
| `MdUtils.WallLineFields` | constraining_pairs/md_utils.py:23-32 | with space-free arguments: one line whose space-separated fields are the kind, `ARG=`, `AT=`, `KAPPA=500000`, `EXP=2`, `OFFSET=0`, `LABEL=` |
| `MdUtils.MathevalLineFields` | constraining_pairs/md_utils.py:46-49 | with space-free arguments: one line whose fields are the label, `MATHEVAL`, `ARG=`, `VAR=`, `FUNC=`, `PERIODIC=NO` |
| `MdUtils.StartEndOneLine` | constraining_pairs/md_utils.py:8-12 | each centre-of-mass text is exactly one line |
| `MdUtils.DistanceOneLine` | constraining_pairs/md_utils.py:16-20 | each distance text is exactly one line |

## Left out

- The `predict_bonding` orchestrator (predict_bonds.py:117-158) is not modelled as one method. Its steps are modelled one by one, and the neighbour query's result is an input of `InitializePotentialPairs`.
- The neighbour query of sklearn's `KDTree` is a foreign call. Its index and distance rows are inputs, with the shape `WellShaped` describes.
- `bond_potential` and `np.exp` are floating point. The model takes the potential as a function parameter of the engine and uses `real` for floats. `float()` on text is a parameter too (`FloatParser`).
- `Utils.SquaredDistance`: does not take the square root of `calc_distance`. `DistanceOrder` shows that the roots compare as the squares do, so every comparison the source makes by distance comes out the same.
- `ProbabilityHeap.PopSpec`, `ProbabilityHeap.PushSpec`: `heapq`'s array layout and its order among equal probabilities are not modelled. The heap is specified by its contents and a highest-probability root, which is all the engine reads.
- `PredictBonds.Engine.InitializePotentialPairs`: Python's `set` iteration order is taken to be insertion order. The same goes for the chain set in `find_radicals`.
- `PredictBonds.Engine.BondSelectionLoop`: `bond_selection_loop` reads `probability_heap[0]` before any emptiness test (predict_bonds.py:248), so an empty candidate list raises `IndexError` rather than running zero rounds. The model follows the code.
- `Isolation.Isolatedness`: connectivity is counted for the chains of the last committed pair (the loop variable `pair` left over at predict_polymerization.py:43-44), not for the candidate's chains. The model follows the code.
- The core strategy's constructor reads `self.QR`, and its score calls `bond_potential` with five arguments; both fail in Python. The model uses the weight and the value 8 for the sixth argument, as the surface strategy does.
- Opening, reading and writing files is not modelled. Readers take the file's lines and writers produce text or append to an `OutputStream`.
- `write_header` (basename of a path), `write_position_section`, `generate_eq_add_file` and the argument-parsing `controller` of the constraint generator are not part of this model. They are I/O glue around the modelled emitters.
- Whitespace for `strip` and `split` is ASCII whitespace only.
- `Text.ParseInt`: accepts only ASCII digits after an optional sign. Python's `int()` also accepts digits grouped by underscores (`"1_0"`) and non-ASCII decimal digits; the model gives `ValueError` for both.
- The md_utils emitters take their arguments as the text `str()` gives them.
- `Molecule.Atom.constructor`: the constructor receives occupancy and temperature factor already converted. The `float()` conversion that `Atom.__init__` does (atom.py:59-62) is `ConvertIfPresent`, which the parser applies before construction. This is because a Dafny constructor cannot return a `ValueError`.
