/** The parsed structure (pair_prediction/tools/pdb.py): fixed-column reading
    of ATOM records (section 9, Coordinate Section, of the wwPDB PDB Format
    v3.3), memoised chain creation, the four append-only result lists, and the
    pair and radical writers as producers of file text. */
module PdbStructure {
  import opened Wrappers
  import opened Text
  import opened Molecule
  import opened Pairs
  import opened Seqs

  /** The fields of one ATOM line after slicing, stripping and conversion. */
  datatype AtomRecord = AtomRecord(
    serial: int, name: string, resName: string, resSeq: int, iCode: string,
    x: real, y: real, z: real, occupancy: FieldValue, tempFactor: FieldValue,
    element: string, charge: string)

  /** The columns the source slices, as half-open `[lo, hi)` ranges. */
  function SerialText(line: string): string { Slice(line, 6, 11) }
  function ResSeqText(line: string): string { Slice(line, 22, 26) }
  /** `assign_chain` takes the residue name from `[17, 20)`, one column
      narrower than the atom's own `[17, 21)`. */
  function ChainTypeOf(line: string): string { Strip(Slice(line, 17, 20)) }

  /** `float(text.strip())`. */
  function ParseFloat(text: string, toFloat: FloatParser): Result<real>
  {
    match toFloat(Strip(text))
    case Some(v) => Ok(v)
    case None => Err(ValueError)
  }

  /** Everything `assign_atom` reads from one line, with its failure order:
      serial, residue sequence number, the three coordinates, then the
      occupancy and temperature-factor conversions of `Atom.__init__`. */
  function ParseAtomLine(line: string, toFloat: FloatParser): Result<AtomRecord> {
    var serial :- ParseInt(SerialText(line));
    var resSeq :- ParseInt(ResSeqText(line));
    ParseAtomFields(line, toFloat, serial, resSeq)
  }

  /** The rest of `assign_atom` once the two integers are known. */
  function ParseAtomFields(line: string, toFloat: FloatParser, serial: int, resSeq: int): (r: Result<AtomRecord>)
    ensures r.Ok? ==> r.value.serial == serial && r.value.resSeq == resSeq
  {
    var x :- ParseFloat(Slice(line, 30, 38), toFloat);
    var y :- ParseFloat(Slice(line, 38, 46), toFloat);
    var z :- ParseFloat(Slice(line, 46, 54), toFloat);
    var occupancy :- ConvertIfPresent(OccupancyText(line), toFloat);
    var tempFactor :- ConvertIfPresent(TempFactorText(line), toFloat);
    Ok(TextFields(line).(serial := serial, resSeq := resSeq, x := x, y := y, z := z,
                         occupancy := occupancy, tempFactor := tempFactor))
  }

  function OccupancyText(line: string): string { Strip(Slice(line, 54, 60)) }
  function TempFactorText(line: string): string { Strip(Slice(line, 60, 66)) }

  /** The text fields of an ATOM line; the numeric fields are placeholders
      that `ParseAtomLine` overwrites. */
  function TextFields(line: string): AtomRecord {
    AtomRecord(0, Strip(Slice(line, 12, 17)), Strip(Slice(line, 17, 21)), 0, Strip(Slice(line, 26, 27)),
               0.0, 0.0, 0.0, Text(""), Text(""), Strip(Slice(line, 76, 78)), Strip(Slice(line, 78, 80)))
  }

  /** The serial and the residue sequence number are parsed first, and the
      record carries them. */
  lemma ParseAtomLineHeader(line: string, toFloat: FloatParser)
    ensures ParseInt(SerialText(line)).Err? || ParseInt(ResSeqText(line)).Err? ==> ParseAtomLine(line, toFloat).Err?
    ensures ParseAtomLine(line, toFloat).Ok? ==>
              ParseAtomLine(line, toFloat).value.serial == ParseInt(SerialText(line)).value
              && ParseAtomLine(line, toFloat).value.resSeq == ParseInt(ResSeqText(line)).value
  {
  }

  /** A right-justified integer column reads back as that integer, so the
      serial and the residue sequence number written in the standard's
      layout are recovered exactly. */
  lemma {:induction false} RightJustifiedColumn(pad: string, n: int)
    requires AllSpace(pad)
    ensures ParseInt(pad + ShowInt(n)) == Ok(n)
  {
    var w := ShowInt(n);
    assert pad + w == pad + w + "";
    StripFramed(pad, w, "");
    StripUnframed(w);
    ParseShowInt(n);
  }

  lemma {:induction false} AtomLineColumns(line: string, toFloat: FloatParser, serialPad: string, serial: int,
                                           resSeqPad: string, resSeq: int)
    requires AllSpace(serialPad) && SerialText(line) == serialPad + ShowInt(serial)
    requires AllSpace(resSeqPad) && ResSeqText(line) == resSeqPad + ShowInt(resSeq)
    ensures ParseAtomLine(line, toFloat).Ok? ==>
              ParseAtomLine(line, toFloat).value.serial == serial
              && ParseAtomLine(line, toFloat).value.resSeq == resSeq
    ensures ParseAtomLine(line, toFloat).Err? <==>
              ParseFloat(Slice(line, 30, 38), toFloat).Err?
              || ParseFloat(Slice(line, 38, 46), toFloat).Err?
              || ParseFloat(Slice(line, 46, 54), toFloat).Err?
              || ConvertIfPresent(OccupancyText(line), toFloat).Err?
              || ConvertIfPresent(TempFactorText(line), toFloat).Err?
  {
    RightJustifiedColumn(serialPad, serial);
    RightJustifiedColumn(resSeqPad, resSeq);
  }

  /** The record an atom object holds. */
  function Describe(atom: Atom): AtomRecord {
    AtomRecord(atom.serial, atom.name, atom.resName, atom.resSeq, atom.iCode, atom.x, atom.y, atom.z,
               atom.occupancy, atom.tempFactor, atom.element, atom.charge)
  }

  function Records(atoms: seq<Atom>): (rs: seq<AtomRecord>)
    ensures |rs| == |atoms|
  {
    seq(|atoms|, i requires 0 <= i < |atoms| => Describe(atoms[i]))
  }

  lemma RecordsConcat(atoms: seq<Atom>, more: seq<Atom>)
    ensures Records(atoms + more) == Records(atoms) + Records(more)
  {
  }

  /** What one line of the file contributes: nothing unless it starts with
      "ATOM", otherwise the record it parses to. */
  function LineRecords(line: string, toFloat: FloatParser): Result<seq<AtomRecord>> {
    if !StartsWith(line, "ATOM") then Ok([])
    else
      var record :- ParseAtomLine(line, toFloat);
      Ok([record])
  }

  /** `PDB.parse`: only lines starting with "ATOM" produce atoms, in file
      order; the first line that fails to parse ends the parse. */
  function ParseAll(lines: seq<string>, toFloat: FloatParser): Result<seq<AtomRecord>> {
    if lines == [] then Ok([])
    else
      var records :- ParseAll(lines[..|lines| - 1], toFloat);
      var more :- LineRecords(lines[|lines| - 1], toFloat);
      Ok(records + more)
  }

  /** One more line extends the parse by that line's contribution. */
  lemma ParseAllStep(lines: seq<string>, i: nat, toFloat: FloatParser)
    requires i < |lines|
    ensures ParseAll(lines[..i + 1], toFloat)
            == (match ParseAll(lines[..i], toFloat)
                case Err(e) => Err(e)
                case Ok(records) =>
                  match LineRecords(lines[i], toFloat)
                  case Err(e) => Err(e)
                  case Ok(more) => Ok(records + more))
  {
    assert lines[..i + 1][..i] == lines[..i];
  }

  /** The number of lines starting with "ATOM". */
  function AtomLineCount(lines: seq<string>): nat {
    if lines == [] then 0
    else AtomLineCount(lines[..|lines| - 1]) + (if StartsWith(lines[|lines| - 1], "ATOM") then 1 else 0)
  }

  /** Parsing succeeds exactly when every ATOM line parses. */
  lemma {:induction false} ParseAllCharacterised(lines: seq<string>, toFloat: FloatParser)
    ensures ParseAll(lines, toFloat).Ok? <==>
            forall i :: 0 <= i < |lines| ==> LineParses(lines[i], toFloat)
  {
    if lines != [] {
      var init := lines[..|lines| - 1];
      ParseAllCharacterised(init, toFloat);
      assert forall i :: 0 <= i < |init| ==> init[i] == lines[i];
      assert LineParses(lines[|lines| - 1], toFloat) <==> LineRecords(lines[|lines| - 1], toFloat).Ok?;
    }
  }

  /** A successful parse yields one record per ATOM line. */
  lemma {:induction false} ParseAllCount(lines: seq<string>, toFloat: FloatParser)
    requires ParseAll(lines, toFloat).Ok?
    ensures |ParseAll(lines, toFloat).value| == AtomLineCount(lines)
  {
    if lines != [] {
      ParseAllCount(lines[..|lines| - 1], toFloat);
    }
  }

  /** A line that is not an ATOM record, or one whose fields all convert. */
  predicate LineParses(line: string, toFloat: FloatParser) {
    StartsWith(line, "ATOM") ==> ParseAtomLine(line, toFloat).Ok?
  }

  /** A failure in a prefix is a failure of the whole parse. */
  lemma {:induction false} ParseAllPrefix(lines: seq<string>, n: nat, toFloat: FloatParser)
    requires n <= |lines|
    requires ParseAll(lines[..n], toFloat).Err?
    ensures ParseAll(lines, toFloat).Err?
    decreases |lines|
  {
    if n < |lines| {
      assert lines[..|lines| - 1][..n] == lines[..n];
      ParseAllPrefix(lines[..|lines| - 1], n, toFloat);
    } else {
      assert lines[..n] == lines;
    }
  }

  lemma AppendAssoc<T>(a: seq<T>, b: seq<T>, c: seq<T>)
    ensures a + b + c == a + (b + c)
  {
  }

  lemma PrefixOfAppend<T>(a: seq<T>, b: seq<T>)
    ensures a <= a + b
  {
  }

  /** A line that parses extends the parse of the lines before it. */
  lemma ParseAllOkStep(lines: seq<string>, i: nat, toFloat: FloatParser, records: seq<AtomRecord>, more: seq<AtomRecord>)
    requires i < |lines|
    requires ParseAll(lines[..i], toFloat) == Ok(records) && LineRecords(lines[i], toFloat) == Ok(more)
    ensures ParseAll(lines[..i + 1], toFloat) == Ok(records + more)
  {
    ParseAllStep(lines, i, toFloat);
  }

  /** A line that fails to parse fails the whole parse. */
  lemma ParseAllErrStep(lines: seq<string>, i: nat, toFloat: FloatParser)
    requires i < |lines|
    requires ParseAll(lines[..i], toFloat).Ok? && LineRecords(lines[i], toFloat).Err?
    ensures ParseAll(lines, toFloat).Err?
  {
    ParseAllStep(lines, i, toFloat);
    ParseAllPrefix(lines, i + 1, toFloat);
  }

  /** Every atom in the chain's map sits on this chain under its own name. */
  predicate ChainValid(chain: Chain)
    reads chain
  {
    forall n :: n in chain.atoms ==>
      chain.atoms[n].chain == chain && chain.atoms[n].name == n && chain.atoms[n].resSeq == chain.chainId
  }

  class Pdb {
    var atoms: seq<Atom>
    /** Residue sequence number to chain. */
    var chains: map<int, Chain>
    var bondedPairs: seq<Pair>
    var bondedPairsCore: seq<Pair>
    var bondedPairsSurface: seq<Pair>
    var radicals: seq<Atom>

    /** The shape `assign_atom` maintains: chains are keyed by their id, an
        atom's residue sequence number is its chain's id and its chain is the
        one stored under that id, and each chain maps a name to an atom of
        that name on that chain. */
    predicate Valid()
      reads this, chains.Values
    {
      (forall k :: k in chains ==> chains[k].chainId == k)
      && (forall i :: 0 <= i < |atoms| ==>
            atoms[i].resSeq in chains && chains[atoms[i].resSeq] == atoms[i].chain
            && atoms[i].chain.chainId == atoms[i].resSeq)
      && (forall k :: k in chains ==> ChainValid(chains[k]))
    }

    /** An empty structure; `Load` fills it from the file's lines. */
    constructor()
      ensures Valid()
      ensures atoms == [] && chains == map[]
      ensures bondedPairs == [] && bondedPairsCore == [] && bondedPairsSurface == [] && radicals == []
    {
      atoms, chains := [], map[];
      bondedPairs, bondedPairsCore, bondedPairsSurface, radicals := [], [], [], [];
    }

    /** The chain already stored for the line's residue sequence number, if
        any: the only existing object `assign_atom` can change besides the
        structure itself. */
    function ExistingChain(line: string): set<Chain>
      reads this
    {
      var resSeq := ParseInt(ResSeqText(line));
      if resSeq.Ok? && resSeq.value in chains then {chains[resSeq.value]} else {}
    }

    /** `assign_chain`: the chain for the line's residue sequence number,
        created on first sight with the line's residue name as its type. */
    method AssignChain(line: string) returns (r: Result<Chain>)
      requires Valid()
      modifies this
      ensures Valid()
      ensures atoms == old(atoms) && bondedPairs == old(bondedPairs) && radicals == old(radicals)
      ensures bondedPairsCore == old(bondedPairsCore) && bondedPairsSurface == old(bondedPairsSurface)
      ensures ParseInt(ResSeqText(line)).Err? ==> r == Err(ValueError) && chains == old(chains)
      ensures ParseInt(ResSeqText(line)).Ok? ==>
                var k := ParseInt(ResSeqText(line)).value;
                r.Ok? && k in chains && r.value == chains[k] && r.value.chainId == k
                && (k in old(chains) ==> chains == old(chains))
                && (k !in old(chains) ==>
                      fresh(r.value) && chains == old(chains)[k := r.value]
                      && r.value.chainType == ChainTypeOf(line)
                      && r.value.atoms == map[] && r.value.bondedChains == [])
    {
      var resName := ChainTypeOf(line);
      var resSeq :- ParseInt(ResSeqText(line));
      if resSeq in chains {
        return Ok(chains[resSeq]);
      }
      var chain := new Chain(resSeq, resName);
      chains := chains[resSeq := chain];
      return Ok(chain);
    }

    /** `assign_atom`: builds the atom from the line's columns, inserts it
        into its chain's map and appends it to `atoms`. A coordinate or
        conversion failure comes after the chain was created, so the new
        chain stays. */
    method AssignAtom(line: string, toFloat: FloatParser) returns (r: Outcome)
      requires Valid()
      modifies this, ExistingChain(line)
      ensures Valid()
      ensures r.Ok? <==> ParseAtomLine(line, toFloat).Ok?
      ensures r.Err? ==> r.error == ValueError && atoms == old(atoms)
      ensures r.Ok? ==>
                |atoms| == |old(atoms)| + 1 && atoms[..|old(atoms)|] == old(atoms)
                && fresh(atoms[|old(atoms)|])
                && Describe(atoms[|old(atoms)|]) == ParseAtomLine(line, toFloat).value
      ensures bondedPairs == old(bondedPairs) && radicals == old(radicals)
      ensures bondedPairsCore == old(bondedPairsCore) && bondedPairsSurface == old(bondedPairsSurface)
      ensures forall k :: k in old(chains) ==> k in chains && chains[k] == old(chains[k])
      ensures forall k :: k in chains && k !in old(chains) ==> fresh(chains[k])
      ensures r.Ok? ==>
                var atom, k := atoms[|old(atoms)|], atoms[|old(atoms)|].resSeq;
                k in chains && atom.chain == chains[k]
                && (k in old(chains) ==> atom.chain.atoms == old(chains[k].atoms)[atom.name := atom])
                && (k !in old(chains) ==>
                      atom.chain.atoms == map[atom.name := atom] && atom.chain.bondedChains == []
                      && atom.chain.chainType == ChainTypeOf(line))
    {
      ParseAtomLineHeader(line, toFloat);
      if ParseInt(SerialText(line)).Err? {
        return Err(ValueError);
      }
      var chain :- AssignChain(line);
      var parsed := ParseAtomLine(line, toFloat);
      if parsed.Err? {
        return Err(ValueError);
      }
      var rec := parsed.value;
      var atom := new Atom(rec.serial, rec.name, rec.resName, chain, rec.resSeq, rec.iCode, rec.x, rec.y, rec.z,
                           rec.occupancy, rec.tempFactor, rec.element, rec.charge);
      Insert(atom);
      return Ok(());
    }

    /** The two insertions that end `assign_atom`: into the chain's map and
        onto the atom list. */
    method Insert(atom: Atom)
      requires Valid()
      requires atom.resSeq in chains && chains[atom.resSeq] == atom.chain
      modifies this, atom.chain
      ensures Valid()
      ensures atoms == old(atoms) + [atom] && chains == old(chains)
      ensures atom.chain.atoms == old(atom.chain.atoms)[atom.name := atom]
      ensures atom.chain.bondedChains == old(atom.chain.bondedChains)
      ensures bondedPairs == old(bondedPairs) && radicals == old(radicals)
      ensures bondedPairsCore == old(bondedPairsCore) && bondedPairsSurface == old(bondedPairsSurface)
    {
      atom.chain.AddAtom(atom);
      atoms := atoms + [atom];
    }

    /** One pass of the loop in `PDB.parse`. */
    method ParseLine(line: string, toFloat: FloatParser) returns (r: Outcome)
      requires Valid()
      modifies this, ExistingChain(line)
      ensures Valid()
      ensures r.Ok? <==> LineRecords(line, toFloat).Ok?
      ensures old(atoms) <= atoms
      ensures r.Ok? ==> atoms == old(atoms) + atoms[|old(atoms)|..]
                        && Records(atoms[|old(atoms)|..]) == LineRecords(line, toFloat).value
      ensures forall k :: k in chains ==> (k in old(chains) && chains[k] == old(chains[k])) || fresh(chains[k])
      ensures bondedPairs == old(bondedPairs) && radicals == old(radicals)
      ensures bondedPairsCore == old(bondedPairsCore) && bondedPairsSurface == old(bondedPairsSurface)
    {
      if !StartsWith(line, "ATOM") {
        assert atoms[|atoms|..] == [];
        return Ok(());
      }
      r := AssignAtom(line, toFloat);
      if r.Ok? {
        assert atoms[|old(atoms)|..] == [atoms[|old(atoms)|]];
      }
    }

    /** One pass of the loop in `PDB.parse`, in terms of the parse so far. */
    method ParseNext(lines: seq<string>, i: nat, toFloat: FloatParser, ghost added: seq<Atom>)
      returns (r: Outcome, ghost newAtoms: seq<Atom>)
      requires i < |lines| && Valid() && ParseAll(lines[..i], toFloat) == Ok(Records(added))
      modifies this, ExistingChain(lines[i])
      ensures Valid()
      ensures r.Err? ==> ParseAll(lines, toFloat).Err?
      ensures atoms == old(atoms) + newAtoms
      ensures r.Ok? ==> ParseAll(lines[..i + 1], toFloat) == Ok(Records(added + newAtoms))
      ensures forall k :: k in chains ==> (k in old(chains) && chains[k] == old(chains[k])) || fresh(chains[k])
      ensures bondedPairs == old(bondedPairs) && radicals == old(radicals)
      ensures bondedPairsCore == old(bondedPairsCore) && bondedPairsSurface == old(bondedPairsSurface)
    {
      ghost var before := atoms;
      r := ParseLine(lines[i], toFloat);
      newAtoms := atoms[|before|..];
      if r.Err? {
        ParseAllErrStep(lines, i, toFloat);
      } else {
        ParseAllOkStep(lines, i, toFloat, Records(added), Records(newAtoms));
        RecordsConcat(added, newAtoms);
      }
    }

    /** `PDB.parse` over the file's lines. */
    method Parse(lines: seq<string>, toFloat: FloatParser) returns (r: Outcome)
      requires Valid()
      modifies this, chains.Values
      ensures Valid()
      ensures r.Ok? <==> ParseAll(lines, toFloat).Ok?
      ensures r.Err? ==> r.error == ValueError
      ensures old(atoms) <= atoms
      ensures r.Ok? ==> Records(atoms[|old(atoms)|..]) == ParseAll(lines, toFloat).value
      ensures bondedPairs == old(bondedPairs) && radicals == old(radicals)
      ensures bondedPairsCore == old(bondedPairsCore) && bondedPairsSurface == old(bondedPairsSurface)
    {
      ghost var added: seq<Atom> := [];
      for i := 0 to |lines|
        invariant Valid()
        invariant atoms == old(atoms) + added
        invariant ParseAll(lines[..i], toFloat) == Ok(Records(added))
        invariant forall k :: k in chains ==> chains[k] in old(chains.Values) || fresh(chains[k])
        invariant bondedPairs == old(bondedPairs) && radicals == old(radicals)
        invariant bondedPairsCore == old(bondedPairsCore) && bondedPairsSurface == old(bondedPairsSurface)
      {
        var outcome, newAtoms := ParseNext(lines, i, toFloat, added);
        AppendAssoc(old(atoms), added, newAtoms);
        if outcome.Err? {
          PrefixOfAppend(old(atoms), added + newAtoms);
          return Err(ValueError);
        }
        added := added + newAtoms;
      }
      assert lines[..|lines|] == lines;
      assert atoms[|old(atoms)|..] == added;
      return Ok(());
    }

    /** `PDB.__init__` with `parse`: a fresh structure holding the atoms of the
        file's ATOM lines, with empty result lists. */
    static method Load(lines: seq<string>, toFloat: FloatParser) returns (r: Result<Pdb>)
      ensures r.Ok? <==> ParseAll(lines, toFloat).Ok?
      ensures r.Err? ==> r.error == ValueError
      ensures r.Ok? ==> fresh(r.value) && r.value.Valid()
                        && Records(r.value.atoms) == ParseAll(lines, toFloat).value
                        && r.value.bondedPairs == [] && r.value.bondedPairsCore == []
                        && r.value.bondedPairsSurface == [] && r.value.radicals == []
    {
      var pdb := new Pdb();
      var outcome := pdb.Parse(lines, toFloat);
      if outcome.Err? {
        return Err(ValueError);
      }
      assert pdb.atoms[0..] == pdb.atoms;
      return Ok(pdb);
    }

    method AddBondedPair(pair: Pair)
      modifies this
      ensures bondedPairs == old(bondedPairs) + [pair]
      ensures atoms == old(atoms) && chains == old(chains) && radicals == old(radicals)
      ensures bondedPairsCore == old(bondedPairsCore) && bondedPairsSurface == old(bondedPairsSurface)
    {
      bondedPairs := bondedPairs + [pair];
    }

    method AddCoreBondedPair(pair: Pair)
      modifies this
      ensures bondedPairsCore == old(bondedPairsCore) + [pair]
      ensures atoms == old(atoms) && chains == old(chains) && radicals == old(radicals)
      ensures bondedPairs == old(bondedPairs) && bondedPairsSurface == old(bondedPairsSurface)
    {
      bondedPairsCore := bondedPairsCore + [pair];
    }

    method AddSurfaceBondedPair(pair: Pair)
      modifies this
      ensures bondedPairsSurface == old(bondedPairsSurface) + [pair]
      ensures atoms == old(atoms) && chains == old(chains) && radicals == old(radicals)
      ensures bondedPairs == old(bondedPairs) && bondedPairsCore == old(bondedPairsCore)
    {
      bondedPairsSurface := bondedPairsSurface + [pair];
    }

    method AddRadical(radical: Atom)
      modifies this
      ensures radicals == old(radicals) + [radical]
      ensures atoms == old(atoms) && chains == old(chains) && bondedPairs == old(bondedPairs)
      ensures bondedPairsCore == old(bondedPairsCore) && bondedPairsSurface == old(bondedPairsSurface)
    {
      radicals := radicals + [radical];
    }
  }

  /** `write_pymol_pairs`: "+s1+s2" per pair, with no separator between pairs. */
  function PymolPairs(pairs: seq<Pair>): string {
    if pairs == [] then ""
    else
      var p := pairs[|pairs| - 1];
      PymolPairs(pairs[..|pairs| - 1]) + "+" + ShowInt(p.atom1.serial) + "+" + ShowInt(p.atom2.serial)
  }

  /** The line `write_columned_pairs` writes for one pair, without its newline. */
  function ColumnedLine(pair: Pair): string {
    ShowInt(pair.atom1.serial) + " " + ShowInt(pair.atom2.serial)
  }

  /** `write_columned_pairs`: "s1 s2\n" per pair. */
  function ColumnedPairs(pairs: seq<Pair>): string {
    if pairs == [] then ""
    else ColumnedPairs(pairs[..|pairs| - 1]) + ColumnedLine(pairs[|pairs| - 1]) + "\n"
  }

  /** `write_pairs`: optionally the pymol line first, then the columns. */
  function PairsFile(pairs: seq<Pair>, outputPymolPairs: bool): string {
    (if outputPymolPairs then PymolPairs(pairs) + "\n" else "") + ColumnedPairs(pairs)
  }

  /** `write_radicals`: one serial per line. */
  function RadicalsFile(radicals: seq<Atom>): string {
    if radicals == [] then ""
    else RadicalsFile(radicals[..|radicals| - 1]) + ShowInt(radicals[|radicals| - 1].serial) + "\n"
  }

  /** The lines of the columned file, without their newlines. */
  function ColumnedLines(pairs: seq<Pair>): seq<string> {
    Map(ColumnedLine, pairs)
  }

  lemma {:induction false} ColumnedPairsJoin(pairs: seq<Pair>)
    ensures ColumnedPairs(pairs) == Join(ColumnedLines(pairs) + [""], '\n')
  {
    if pairs != [] {
      var init := pairs[..|pairs| - 1];
      ColumnedPairsJoin(init);
      JoinAppend(ColumnedLines(init), ColumnedLine(pairs[|pairs| - 1]), '\n');
    }
  }

  /** The columned file splits at newlines into one line per pair, then the
      empty text after the last newline. */
  lemma ColumnedPairsLines(pairs: seq<Pair>)
    ensures SplitOn(ColumnedPairs(pairs), '\n') == ColumnedLines(pairs) + [""]
  {
    ColumnedPairsJoin(pairs);
    var parts := ColumnedLines(pairs) + [""];
    forall i | 0 <= i < |parts| ensures '\n' !in parts[i] {
      if i < |pairs| {
        NoNewline(ShowInt(pairs[i].atom1.serial));
        NoNewline(ShowInt(pairs[i].atom2.serial));
      }
    }
    SplitOnJoin(parts, '\n');
  }

  lemma NoNewline(s: string)
    requires NoSpace(s)
    ensures '\n' !in s && ' ' !in s
  {
  }

  /** Appending a line before the trailing empty part of a joined text. */
  lemma {:induction false} JoinAppend(parts: seq<string>, line: string, sep: char)
    ensures Join(parts + [line] + [""], sep) == Join(parts + [""], sep) + line + [sep]
    decreases |parts|
  {
    if parts == [] {
      assert Join([line] + [""], sep) == line + [sep] + Join([""], sep);
    } else {
      assert (parts + [line] + [""])[1..] == parts[1..] + [line] + [""];
      assert (parts + [""])[1..] == parts[1..] + [""];
      JoinAppend(parts[1..], line, sep);
    }
  }

  /** The line `write_radicals` writes for one radical, without its newline. */
  function RadicalLine(radical: Atom): string {
    ShowInt(radical.serial)
  }

  lemma {:induction false} RadicalsFileJoin(radicals: seq<Atom>)
    ensures RadicalsFile(radicals) == Join(Map(RadicalLine, radicals) + [""], '\n')
  {
    if radicals != [] {
      var init := radicals[..|radicals| - 1];
      RadicalsFileJoin(init);
      assert Map(RadicalLine, radicals) == Map(RadicalLine, init) + [RadicalLine(radicals[|radicals| - 1])];
      JoinAppend(Map(RadicalLine, init), RadicalLine(radicals[|radicals| - 1]), '\n');
    }
  }

  /** The radicals file splits at newlines into one serial per radical, in
      order, then the empty text after the last newline. */
  lemma RadicalsFileLines(radicals: seq<Atom>)
    ensures SplitOn(RadicalsFile(radicals), '\n') == Map(RadicalLine, radicals) + [""]
  {
    RadicalsFileJoin(radicals);
    var lines := Map(RadicalLine, radicals);
    forall i | 0 <= i < |lines| ensures '\n' !in lines[i] {
      NoNewline(RadicalLine(radicals[i]));
    }
    var parts := lines + [""];
    assert forall i :: 0 <= i < |parts| ==> parts[i] == if i < |lines| then lines[i] else "";
    SplitOnJoin(parts, '\n');
  }

  /** Each radical's line reads back, with `int()`, as its serial. */
  lemma RadicalLineReadBack(radical: Atom)
    ensures ParseInt(RadicalLine(radical)) == Ok(radical.serial)
  {
    ParseShowInt(radical.serial);
  }

  /** The serials of the pairs, two per pair, in order. */
  function PymolFields(pairs: seq<Pair>): (fields: seq<string>)
    ensures |fields| == 2 * |pairs|
  {
    if pairs == [] then []
    else
      var p := pairs[|pairs| - 1];
      PymolFields(pairs[..|pairs| - 1]) + [ShowInt(p.atom1.serial), ShowInt(p.atom2.serial)]
  }

  /** Joining one more part. */
  lemma {:induction false} JoinSnoc(parts: seq<string>, last: string, sep: char)
    requires |parts| >= 1
    ensures Join(parts + [last], sep) == Join(parts, sep) + [sep] + last
    decreases |parts|
  {
    if |parts| > 1 {
      assert (parts + [last])[1..] == parts[1..] + [last];
      JoinSnoc(parts[1..], last, sep);
    }
  }

  lemma {:induction false} PymolPairsJoin(pairs: seq<Pair>)
    ensures PymolPairs(pairs) == Join([""] + PymolFields(pairs), '+')
  {
    if pairs != [] {
      var init := pairs[..|pairs| - 1];
      var p := pairs[|pairs| - 1];
      var s1, s2 := ShowInt(p.atom1.serial), ShowInt(p.atom2.serial);
      PymolPairsJoin(init);
      var parts := [""] + PymolFields(init);
      assert [""] + PymolFields(pairs) == parts + [s1] + [s2];
      JoinSnoc(parts, s1, '+');
      JoinSnoc(parts + [s1], s2, '+');
    }
  }

  /** The pymol line splits at `+` into an empty field and then the two
      serials of every pair, in order. */
  lemma PymolPairsFields(pairs: seq<Pair>)
    ensures SplitOn(PymolPairs(pairs), '+') == [""] + PymolFields(pairs)
  {
    PymolPairsJoin(pairs);
    var fields := PymolFields(pairs);
    PymolFieldsPlain(pairs);
    var parts := [""] + fields;
    assert forall i :: 0 <= i < |parts| ==> parts[i] == if i == 0 then "" else fields[i - 1];
    SplitOnJoin(parts, '+');
  }

  lemma {:induction false} PymolFieldsPlain(pairs: seq<Pair>)
    ensures forall i :: 0 <= i < |PymolFields(pairs)| ==> '+' !in PymolFields(pairs)[i]
  {
    if pairs != [] {
      var p := pairs[|pairs| - 1];
      var init := PymolFields(pairs[..|pairs| - 1]);
      PymolFieldsPlain(pairs[..|pairs| - 1]);
      PlusFree(p.atom1.serial);
      PlusFree(p.atom2.serial);
      var fields := PymolFields(pairs);
      assert fields == init + [ShowInt(p.atom1.serial), ShowInt(p.atom2.serial)];
      forall i | 0 <= i < |fields| ensures '+' !in fields[i] {
        if i < |init| {
          assert fields[i] == init[i];
        }
      }
    }
  }

  /** A decimal number holds no `+`. */
  lemma PlusFree(n: int)
    ensures '+' !in ShowInt(n)
  {
    var digits := ShowNat(if n < 0 then -n else n);
    assert forall i :: 0 <= i < |digits| ==> digits[i] != '+';
    assert ShowInt(n) == (if n < 0 then ['-'] + digits else digits);
  }

  /** Each columned line reads back as the pair's two serials. */
  lemma ColumnedLineReadBack(pair: Pair)
    ensures SplitOn(ColumnedLine(pair), ' ') == [ShowInt(pair.atom1.serial), ShowInt(pair.atom2.serial)]
    ensures ParseInt(ShowInt(pair.atom1.serial)) == Ok(pair.atom1.serial)
    ensures ParseInt(ShowInt(pair.atom2.serial)) == Ok(pair.atom2.serial)
  {
    var s1, s2 := ShowInt(pair.atom1.serial), ShowInt(pair.atom2.serial);
    NoNewline(s1);
    NoNewline(s2);
    SplitOnPrefix(s1, s2, ' ');
    SplitOnPlain(s2, ' ');
    ParseShowInt(pair.atom1.serial);
    ParseShowInt(pair.atom2.serial);
  }
}
