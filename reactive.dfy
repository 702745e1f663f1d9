/** The reactive-atom input of the bond engine
    (pair_prediction/tools/predict_bonds.py, `get_reactive_str_representation`
    and `init_reactive_atoms`): a text file of two columns per line, atom name
    then residue name, read into a dictionary from residue name to atom
    names, which then selects the reactive atoms of the structure. */
module ReactiveInput {
  import opened Wrappers
  import opened Text
  import opened Seqs
  import opened Molecule

  /** Residue name to the atom names listed for it, in file order. */
  type ReactiveDict = map<string, seq<string>>

  /** The whitespace-separated columns of a stripped line. */
  function Columns(line: string): seq<string> {
    SplitWhitespace(Strip(line))
  }

  /** A line with both columns present. */
  predicate HasTwoColumns(line: string) {
    |Columns(line)| >= 2
  }

  /** The dictionary the lines produce, or the `IndexError` of the first line
      with fewer than two columns: each line appends its first column to the
      list of its second column. */
  function ReactiveEntries(lines: seq<string>): Result<ReactiveDict> {
    if lines == [] then Ok(map[])
    else
      var dict :- ReactiveEntries(lines[..|lines| - 1]);
      var columns := Columns(lines[|lines| - 1]);
      if |columns| < 2 then Err(IndexError)
      else
        var residueName, atomName := columns[1], columns[0];
        Ok(dict[residueName := (if residueName in dict then dict[residueName] else []) + [atomName]])
  }

  /** The first columns of the lines whose second column is `residueName`,
      in file order, duplicates kept. */
  function NamesFor(lines: seq<string>, residueName: string): seq<string> {
    if lines == [] then []
    else
      var init := NamesFor(lines[..|lines| - 1], residueName);
      var columns := Columns(lines[|lines| - 1]);
      if |columns| >= 2 && columns[1] == residueName then init + [columns[0]] else init
  }

  /** The dictionary exists exactly when every line has two columns;
      otherwise the failure is an `IndexError`. */
  lemma {:induction false} ReactiveEntriesOk(lines: seq<string>)
    ensures ReactiveEntries(lines).Ok? <==> forall i :: 0 <= i < |lines| ==> HasTwoColumns(lines[i])
    ensures ReactiveEntries(lines).Err? ==> ReactiveEntries(lines).error == IndexError
  {
    if lines != [] {
      var init := lines[..|lines| - 1];
      ReactiveEntriesOk(init);
      assert forall i :: 0 <= i < |init| ==> init[i] == lines[i];
    }
  }

  /** The keys of the dictionary are the second columns that occur. */
  lemma {:induction false} ReactiveEntriesKeys(lines: seq<string>, residueName: string)
    requires ReactiveEntries(lines).Ok?
    ensures (residueName in ReactiveEntries(lines).value)
            <==> (exists i :: 0 <= i < |lines| && HasTwoColumns(lines[i]) && Columns(lines[i])[1] == residueName)
  {
    if residueName in ReactiveEntries(lines).value {
      var i := KeyLine(lines, residueName);
    }
    if exists i :: 0 <= i < |lines| && HasTwoColumns(lines[i]) && Columns(lines[i])[1] == residueName {
      var i :| 0 <= i < |lines| && HasTwoColumns(lines[i]) && Columns(lines[i])[1] == residueName;
      LineKey(lines, residueName, i);
    }
  }

  /** A key of the dictionary is the second column of some line. */
  lemma {:induction false} KeyLine(lines: seq<string>, residueName: string) returns (i: nat)
    requires ReactiveEntries(lines).Ok? && residueName in ReactiveEntries(lines).value
    ensures i < |lines| && HasTwoColumns(lines[i]) && Columns(lines[i])[1] == residueName
  {
    var n := |lines| - 1;
    var init := lines[..n];
    if HasTwoColumns(lines[n]) && Columns(lines[n])[1] == residueName {
      i := n;
    } else {
      i := KeyLine(init, residueName);
      assert lines[i] == init[i];
    }
  }

  /** The second column of every line is a key of the dictionary. */
  lemma {:induction false} LineKey(lines: seq<string>, residueName: string, i: nat)
    requires ReactiveEntries(lines).Ok?
    requires i < |lines| && HasTwoColumns(lines[i]) && Columns(lines[i])[1] == residueName
    ensures residueName in ReactiveEntries(lines).value
  {
    var n := |lines| - 1;
    var init := lines[..n];
    if i < n {
      assert init[i] == lines[i];
      LineKey(init, residueName, i);
    }
  }

  /** Each key's list holds the first columns of its lines, in file order,
      duplicates kept. */
  lemma {:induction false} ReactiveEntriesValues(lines: seq<string>, residueName: string)
    requires ReactiveEntries(lines).Ok? && residueName in ReactiveEntries(lines).value
    ensures ReactiveEntries(lines).value[residueName] == NamesFor(lines, residueName)
  {
    var init := lines[..|lines| - 1];
    var last := lines[|lines| - 1];
    ReactiveEntriesOk(lines);
    assert forall i :: 0 <= i < |init| ==> init[i] == lines[i];
    var dict := ReactiveEntries(init).value;
    if residueName in dict {
      ReactiveEntriesValues(init, residueName);
    } else {
      ReactiveEntriesOk(init);
      forall i | 0 <= i < |init| ensures HasTwoColumns(init[i]) && Columns(init[i])[1] != residueName {
        if HasTwoColumns(init[i]) && Columns(init[i])[1] == residueName {
          ReactiveEntriesKeys(init, residueName);
        }
      }
      NamesForAbsent(init, residueName);
    }
  }

  /** A residue name that no line carries has no atom names. */
  lemma {:induction false} NamesForAbsent(lines: seq<string>, residueName: string)
    requires forall i :: 0 <= i < |lines| ==> HasTwoColumns(lines[i]) && Columns(lines[i])[1] != residueName
    ensures NamesFor(lines, residueName) == []
  {
    if lines != [] {
      NamesForAbsent(lines[..|lines| - 1], residueName);
    }
  }

  /** The loop of `get_reactive_str_representation` over the file's lines. */
  method GetReactiveStrRepresentation(lines: seq<string>) returns (r: Result<ReactiveDict>)
    ensures r == ReactiveEntries(lines)
  {
    var reactiveAtomDict: ReactiveDict := map[];
    for i := 0 to |lines|
      invariant ReactiveEntries(lines[..i]) == Ok(reactiveAtomDict)
    {
      assert lines[..i + 1][..i] == lines[..i];
      var line := Strip(lines[i]);
      var columns := SplitWhitespace(line);
      if |columns| < 2 {
        ReactiveEntriesOk(lines);
        assert !HasTwoColumns(lines[i]);
        return Err(IndexError);
      }
      var residueName := columns[1];
      var atomName := columns[0];
      ghost var before := reactiveAtomDict;
      if residueName !in reactiveAtomDict {
        reactiveAtomDict := reactiveAtomDict[residueName := []];
      }
      reactiveAtomDict := reactiveAtomDict[residueName := reactiveAtomDict[residueName] + [atomName]];
      assert reactiveAtomDict
             == before[residueName := (if residueName in before then before[residueName] else []) + [atomName]];
    }
    assert lines[..|lines|] == lines;
    return Ok(reactiveAtomDict);
  }

  /** `res_name[:3]`. */
  function ResidueKey(resName: string): string {
    if |resName| <= 3 then resName else resName[..3]
  }

  /** `atom.name in reactive_atoms_dict.get(atom.res_name[:3], [])`. */
  predicate IsReactive(dict: ReactiveDict, atom: Atom) {
    var key := ResidueKey(atom.resName);
    key in dict && atom.name in dict[key]
  }
}
