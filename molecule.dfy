/** Atoms and chains of a parsed structure (pair_prediction/tools/atom.py and
    pair_prediction/tools/chain.py). An atom points at its chain and a chain
    maps atom names to atoms, so both classes live in one module. Identity
    fields are constants; the fields the bond engine updates in place are
    variables. */
module Molecule {
  import opened Wrappers

  /** An occupancy or temperature-factor column: the empty text is kept as
      text, any other text is converted with `float()`. */
  datatype FieldValue = Text(text: string) | Number(number: real)

  /** Python's `float()` on a column of text: `None` stands for `ValueError`.
      Decimal-to-binary conversion is not part of this model, so the parser is
      a parameter. */
  type FloatParser = string -> Option<real>

  /** The conversion `Atom.__init__` applies to occupancy and temperature factor. */
  function ConvertIfPresent(s: string, toFloat: FloatParser): (r: Result<FieldValue>)
    ensures s == "" ==> r == Ok(Text(""))
    ensures s != "" && toFloat(s).Some? ==> r == Ok(Number(toFloat(s).value))
    ensures s != "" && toFloat(s).None? ==> r == Err(ValueError)
  {
    if s == "" then Ok(Text(s))
    else match toFloat(s)
      case Some(v) => Ok(Number(v))
      case None => Err(ValueError)
  }

  class Atom {
    const recordName: string := "ATOM"
    const serial: int
    const name: string
    const resName: string
    const chain: Chain
    const resSeq: int
    const iCode: string
    const x: real
    const y: real
    const z: real
    const occupancy: FieldValue
    const tempFactor: FieldValue
    const element: string
    const charge: string
    /** Set once the atom is an endpoint of a committed cross-link. */
    var isBondedExternal: bool
    /** Set once radical assignment has resolved the atom. */
    var isPaired: bool

    constructor(serial: int, name: string, resName: string, chain: Chain, resSeq: int,
                iCode: string, x: real, y: real, z: real,
                occupancy: FieldValue, tempFactor: FieldValue, element: string, charge: string,
                isBondedExternal: bool := false, isPaired: bool := false)
      ensures this.serial == serial && this.name == name && this.resName == resName
      ensures this.chain == chain && this.resSeq == resSeq && this.iCode == iCode
      ensures this.x == x && this.y == y && this.z == z
      ensures this.occupancy == occupancy && this.tempFactor == tempFactor
      ensures this.element == element && this.charge == charge
      ensures this.isBondedExternal == isBondedExternal && this.isPaired == isPaired
      ensures recordName == "ATOM"
    {
      this.serial, this.name, this.resName, this.chain, this.resSeq := serial, name, resName, chain, resSeq;
      this.iCode, this.x, this.y, this.z := iCode, x, y, z;
      this.occupancy, this.tempFactor, this.element, this.charge := occupancy, tempFactor, element, charge;
      this.isBondedExternal, this.isPaired := isBondedExternal, isPaired;
    }

    /** `Atom.__eq__`: atoms are equal when their serial numbers are. */
    predicate Equals(other: Atom) {
      serial == other.serial
    }
  }

  class Chain {
    const chainId: int
    const chainType: string
    /** Atom name to atom; a later atom of the same name replaces an earlier one. */
    var atoms: map<string, Atom>
    /** Chains this chain has bonded to, in commit order, duplicates kept. */
    var bondedChains: seq<Chain>

    constructor(chainId: int, chainType: string)
      ensures this.chainId == chainId && this.chainType == chainType
      ensures atoms == map[] && bondedChains == []
    {
      this.chainId, this.chainType := chainId, chainType;
      atoms, bondedChains := map[], [];
    }

    /** `Chain.__eq__` (and `__hash__`): chains are equal when their ids are. */
    predicate Equals(other: Chain) {
      chainId == other.chainId
    }

    method AddAtom(atom: Atom)
      modifies this
      ensures atoms == old(atoms)[atom.name := atom]
      ensures bondedChains == old(bondedChains)
    {
      atoms := atoms[atom.name := atom];
    }

    method AddBondedChain(chain: Chain)
      modifies this
      ensures bondedChains == old(bondedChains) + [chain]
      ensures atoms == old(atoms)
    {
      bondedChains := bondedChains + [chain];
    }
  }

  /** Python's `chain in chains`, which compares with `Chain.__eq__`. */
  predicate ChainIn(chain: Chain, chains: seq<Chain>)
  {
    exists i :: 0 <= i < |chains| && chains[i].Equals(chain)
  }

  /** Python's `atom in atoms`, which compares with `Atom.__eq__`. */
  predicate AtomIn(atom: Atom, atoms: seq<Atom>)
  {
    exists i :: 0 <= i < |atoms| && atoms[i].Equals(atom)
  }

  /** Appending to a bonded-chain list keeps every earlier membership. */
  lemma ChainInAppend(chain: Chain, chains: seq<Chain>, more: seq<Chain>)
    requires ChainIn(chain, chains)
    ensures ChainIn(chain, chains + more)
  {
    var i :| 0 <= i < |chains| && chains[i].Equals(chain);
    assert (chains + more)[i] == chains[i];
  }
}
