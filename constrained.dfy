/** The structure and bond-list readers of the constraint generator
    (constraining_pairs/constrained_distances.py). `get_indices` walks the
    lines of a structure file, numbers its ATOM records from 1, collects the
    numbers of the surfactant's C6 and N atoms, and groups the atoms of the
    divinylbenzene and template residues into one (start, end) range per run
    of equal residue numbers. `get_pair_data` reads a bond list two lines at
    a time. Both work over the lines of a file; opening it is not modelled. */
module ConstrainedDistances {
  import opened Wrappers
  import opened Text
  import opened Seqs

  /** One ATOM record as `get_indices` sees it: its 1-based position among
      the ATOM records, the residue name cut to three characters, the
      residue number and the atom name (whitespace columns 4, 5 and 3). */
  datatype AtomEntry = AtomEntry(ordinal: int, resName: string, resSeq: string, atomName: string)

  /** What `get_indices` returns: the C6 numbers as strings, the nitrogen
      numbers as integers, and the residue ranges. */
  datatype IndexLists = IndexLists(c6: seq<string>, nitrogen: seq<int>, ranges: seq<(int, int)>)

  const ATOM_RECORD: string := "ATOM"
  const SURFACTANT: string := "SUR"

  /** A line the serial counter counts. */
  predicate IsAtomLine(line: string) {
    StartsWith(line, ATOM_RECORD)
  }

  /** A counted line has the five columns the parser reads. */
  predicate HasColumns(line: string) {
    |SplitWhitespace(line)| >= 5
  }

  /** The ATOM records of the lines, in order; the first ATOM line with fewer
      than five columns is an `IndexError`. Other lines are skipped. */
  function Entries(lines: seq<string>): (r: Result<seq<AtomEntry>>)
    ensures r.Err? ==> r.error == IndexError
    ensures r.Ok? ==> forall i :: 0 <= i < |r.value| ==> r.value[i].ordinal == i + 1 && r.value[i].resSeq != ""
  {
    if lines == [] then Ok([])
    else
      var init :- Entries(lines[..|lines| - 1]);
      var line := lines[|lines| - 1];
      if !IsAtomLine(line) then Ok(init)
      else
        var columns := SplitWhitespace(line);
        if |columns| < 5 then Err(IndexError)
        else Ok(init + [AtomEntry(|init| + 1, Slice(columns[3], 0, 3), columns[4], columns[2])])
  }

  /** The records are read exactly when every ATOM line has five columns. */
  lemma {:induction false} EntriesOk(lines: seq<string>)
    ensures Entries(lines).Ok? <==> forall i :: 0 <= i < |lines| && IsAtomLine(lines[i]) ==> HasColumns(lines[i])
  {
    if lines != [] {
      var init := lines[..|lines| - 1];
      EntriesOk(init);
      assert forall i :: 0 <= i < |init| ==> init[i] == lines[i];
    }
  }

  /** One record per ATOM line: the serial counter advances on those lines only. */
  lemma {:induction false} EntriesCount(lines: seq<string>)
    requires Entries(lines).Ok?
    ensures |Entries(lines).value| == Count(seq(|lines|, i requires 0 <= i < |lines| => IsAtomLine(lines[i])), true)
  {
    var flags := seq(|lines|, i requires 0 <= i < |lines| => IsAtomLine(lines[i]));
    if lines != [] {
      var init := lines[..|lines| - 1];
      var flagsInit := seq(|init|, i requires 0 <= i < |init| => IsAtomLine(init[i]));
      EntriesCount(init);
      assert flags == flagsInit + [IsAtomLine(lines[|lines| - 1])];
      CountConcat(flagsInit, [IsAtomLine(lines[|lines| - 1])], true);
    }
  }

  predicate IsSurfactant(e: AtomEntry) {
    e.resName == SURFACTANT
  }

  predicate IsC6(e: AtomEntry) {
    IsSurfactant(e) && e.atomName == "C6"
  }

  predicate IsNitrogen(e: AtomEntry) {
    IsSurfactant(e) && e.atomName == "N"
  }

  /** A divinylbenzene isomer or the template, tested only after the
      surfactant test has failed. */
  predicate IsRangeResidue(e: AtomEntry, template: string) {
    !IsSurfactant(e) && e.resName in ["DVO", "DVM", "DVP", template]
  }

  /** The numbers of the surfactant C6 atoms, as strings, in file order. */
  function C6Indices(entries: seq<AtomEntry>): seq<string> {
    var f := Filter(entries, IsC6);
    seq(|f|, k requires 0 <= k < |f| => ShowInt(f[k].ordinal))
  }

  /** The numbers of the surfactant N atoms, in file order. */
  function NitrogenIndices(entries: seq<AtomEntry>): seq<int> {
    var f := Filter(entries, IsNitrogen);
    seq(|f|, k requires 0 <= k < |f| => f[k].ordinal)
  }

  /** `IsRangeResidue` for one template, as a filter condition. */
  function RangeKeep(template: string): AtomEntry -> bool {
    (e: AtomEntry) => IsRangeResidue(e, template)
  }

  /** The records that take part in the ranges. */
  function RangeEntries(entries: seq<AtomEntry>, template: string): seq<AtomEntry> {
    Filter(entries, RangeKeep(template))
  }

  /** One (first number, last number) range per run of consecutive range
      records with the same residue number. A run that comes back after
      another residue starts a new range. */
  function Runs(d: seq<AtomEntry>): (r: seq<(int, int)>)
    ensures |r| <= |d|
    ensures d != [] ==> |r| >= 1 && r[0].0 == d[0].ordinal && r[|r| - 1].1 == d[|d| - 1].ordinal
  {
    if d == [] then []
    else
      var init := d[..|d| - 1];
      var e := d[|d| - 1];
      if init == [] || init[|init| - 1].resSeq != e.resSeq then Runs(init) + [(e.ordinal, e.ordinal)]
      else
        var rs := Runs(init);
        rs[..|rs| - 1] + [(rs[|rs| - 1].0, e.ordinal)]
  }

  /** The three lists `get_indices` returns for the lines. */
  function Indices(lines: seq<string>, template: string): Result<IndexLists> {
    var entries :- Entries(lines);
    Ok(IndexLists(C6Indices(entries), NitrogenIndices(entries), Runs(RangeEntries(entries, template))))
  }

  /** The range state of `get_indices` after the range records `d`: the empty
      residue number means that no range is open; otherwise the open range
      (start, end) completes the closed ones to the runs so far. */
  ghost predicate OpenRange(d: seq<AtomEntry>, prevResSeq: string, ranges: seq<(int, int)>,
                            startIdx: int, endIdx: int)
  {
    (prevResSeq == "" <==> d == [])
    && (d == [] ==> ranges == [])
    && (d != [] ==> prevResSeq == d[|d| - 1].resSeq && ranges + [(startIdx, endIdx)] == Runs(d))
  }

  /** `get_indices` over the lines of the structure file. */
  method GetIndices(lines: seq<string>, template: string) returns (r: Result<IndexLists>)
    ensures r == Indices(lines, template)
  {
    var prevResSeq := "";
    var startIdx, endIdx := 0, 0;
    var ranges: seq<(int, int)> := [];
    var c6Indices: seq<string> := [];
    var nitrogenIndices: seq<int> := [];
    var curSerialIdx := 0;
    ghost var entries: seq<AtomEntry> := [];
    for i := 0 to |lines|
      invariant Entries(lines[..i]) == Ok(entries)
      invariant curSerialIdx == |entries|
      invariant c6Indices == C6Indices(entries) && nitrogenIndices == NitrogenIndices(entries)
      invariant OpenRange(RangeEntries(entries, template), prevResSeq, ranges, startIdx, endIdx)
    {
      assert lines[..i + 1][..i] == lines[..i];
      var line := lines[i];
      if IsAtomLine(line) {
        curSerialIdx := curSerialIdx + 1;
        var columns := SplitWhitespace(line);
        if |columns| < 5 {
          EntriesOk(lines);
          return Err(IndexError);
        }
        var resName := Slice(columns[3], 0, 3);
        var resSeq := columns[4];
        var atomName := columns[2];
        var e := AtomEntry(curSerialIdx, resName, resSeq, atomName);
        ghost var before := entries;
        entries := entries + [e];
        assert entries[..|entries| - 1] == before;
        RecordAppended(before, e, template);
        if resName == SURFACTANT {
          if atomName == "C6" {
            c6Indices := c6Indices + [ShowInt(curSerialIdx)];
          } else if atomName == "N" {
            nitrogenIndices := nitrogenIndices + [curSerialIdx];
          }
        } else if resName in ["DVO", "DVM", "DVP", template] {
          OpenRangeStep(RangeEntries(before, template), e, prevResSeq, ranges, startIdx, endIdx);
          if prevResSeq != resSeq {
            if prevResSeq != "" {
              ranges := ranges + [(startIdx, endIdx)];
            }
            prevResSeq := resSeq;
            startIdx := curSerialIdx;
          }
          endIdx := curSerialIdx;
        }
      }
    }
    assert lines[..|lines|] == lines;
    if prevResSeq != "" {
      ranges := ranges + [(startIdx, endIdx)];
    }
    return Ok(IndexLists(c6Indices, nitrogenIndices, ranges));
  }

  /** What one more ATOM record adds to the three lists. */
  lemma RecordAppended(entries: seq<AtomEntry>, e: AtomEntry, template: string)
    ensures C6Indices(entries + [e]) == C6Indices(entries) + (if IsC6(e) then [ShowInt(e.ordinal)] else [])
    ensures NitrogenIndices(entries + [e]) == NitrogenIndices(entries) + (if IsNitrogen(e) then [e.ordinal] else [])
    ensures RangeEntries(entries + [e], template)
            == RangeEntries(entries, template) + (if IsRangeResidue(e, template) then [e] else [])
  {
    assert (entries + [e])[..|entries|] == entries;
  }

  /** One range record moves the range state as `get_indices` does: a new
      residue number closes the open range, if any, and opens one at the
      record; the same number extends the open range to the record. */
  lemma OpenRangeStep(d: seq<AtomEntry>, e: AtomEntry, prevResSeq: string, ranges: seq<(int, int)>,
                      startIdx: int, endIdx: int)
    requires OpenRange(d, prevResSeq, ranges, startIdx, endIdx) && e.resSeq != ""
    ensures prevResSeq != e.resSeq ==>
              OpenRange(d + [e], e.resSeq, if prevResSeq != "" then ranges + [(startIdx, endIdx)] else ranges,
                        e.ordinal, e.ordinal)
    ensures prevResSeq == e.resSeq ==> OpenRange(d + [e], prevResSeq, ranges, startIdx, e.ordinal)
  {
    assert (d + [e])[..|d|] == d;
  }

  /** Record numbers that grow along the sequence. */
  predicate Increasing(d: seq<AtomEntry>) {
    forall i, j :: 0 <= i < j < |d| ==> d[i].ordinal < d[j].ordinal
  }

  /** Filtering keeps the order of the records. */
  lemma {:induction false} FilterIncreasing(d: seq<AtomEntry>, keep: AtomEntry -> bool)
    requires Increasing(d)
    ensures Increasing(Filter(d, keep))
  {
    if d != [] {
      var init := d[..|d| - 1];
      assert Increasing(init);
      FilterIncreasing(init, keep);
      var f := Filter(init, keep);
      forall i | 0 <= i < |f| ensures f[i].ordinal < d[|d| - 1].ordinal {
        var j :| 0 <= j < |init| && init[j] == f[i];
      }
    }
  }

  /** Every range starts no later than it ends, and each range ends before
      the next one starts: increasing ranges that do not overlap. */
  predicate Ordered(r: seq<(int, int)>) {
    (forall k :: 0 <= k < |r| ==> r[k].0 <= r[k].1)
    && (forall k, l :: 0 <= k < l < |r| ==> r[k].1 < r[l].0)
  }

  /** Some range holds the number `x`. */
  predicate Covers(r: seq<(int, int)>, x: int) {
    exists k :: 0 <= k < |r| && r[k].0 <= x <= r[k].1
  }

  /** The two ways a range record changes the ranges. */
  lemma RunsStep(d: seq<AtomEntry>)
    requires |d| >= 2
    ensures var init, e := d[..|d| - 1], d[|d| - 1];
            var rs := Runs(init);
            if d[|d| - 2].resSeq != e.resSeq then Runs(d) == rs + [(e.ordinal, e.ordinal)]
            else Runs(d) == rs[..|rs| - 1] + [(rs[|rs| - 1].0, e.ordinal)]
  {
    assert d[..|d| - 1][|d| - 2] == d[|d| - 2];
  }

  lemma OrderedAppend(rs: seq<(int, int)>, a: (int, int))
    requires Ordered(rs) && a.0 <= a.1 && (rs != [] ==> rs[|rs| - 1].1 < a.0)
    ensures Ordered(rs + [a])
  {
    var r := rs + [a];
    forall k, l | 0 <= k < l < |r| ensures r[k].1 < r[l].0 {
      if k < |rs| - 1 {
        assert rs[k].1 < rs[|rs| - 1].0 <= rs[|rs| - 1].1;
      }
    }
  }

  lemma OrderedExtend(rs: seq<(int, int)>, t: int)
    requires Ordered(rs) && rs != [] && rs[|rs| - 1].1 <= t
    ensures Ordered(rs[..|rs| - 1] + [(rs[|rs| - 1].0, t)])
  {
    var r := rs[..|rs| - 1] + [(rs[|rs| - 1].0, t)];
    forall k, l | 0 <= k < l < |r| ensures r[k].1 < r[l].0 {
      assert r[k] == rs[k];
    }
  }

  /** The ranges of increasing records are ordered and disjoint. */
  lemma {:induction false} RunsOrdered(d: seq<AtomEntry>)
    requires Increasing(d)
    ensures Ordered(Runs(d))
  {
    if |d| == 1 {
      assert Runs(d) == [(d[0].ordinal, d[0].ordinal)];
    } else if |d| >= 2 {
      var init, e := d[..|d| - 1], d[|d| - 1];
      assert Increasing(init);
      RunsOrdered(init);
      RunsStep(d);
      var rs := Runs(init);
      assert rs[|rs| - 1].1 == d[|d| - 2].ordinal < e.ordinal;
      if d[|d| - 2].resSeq != e.resSeq {
        OrderedAppend(rs, (e.ordinal, e.ordinal));
      } else {
        OrderedExtend(rs, e.ordinal);
      }
    }
  }

  /** The position, among the ranges, of the range that holds the `i`-th
      range record. */
  function RunIndex(d: seq<AtomEntry>, i: nat): nat
    requires i < |d|
  {
    if i == |d| - 1 then |Runs(d)| - 1 else RunIndex(d[..|d| - 1], i)
  }

  /** The range `RunIndex` names exists and holds the record's number. */
  lemma {:induction false} RunIndexCovers(d: seq<AtomEntry>, i: nat)
    requires Increasing(d) && i < |d|
    ensures RunIndex(d, i) < |Runs(d)|
    ensures Runs(d)[RunIndex(d, i)].0 <= d[i].ordinal <= Runs(d)[RunIndex(d, i)].1
  {
    RunsOrdered(d);
    if i < |d| - 1 {
      var init, t := d[..|d| - 1], d[|d| - 1].ordinal;
      assert Increasing(init);
      RunIndexCovers(init, i);
      var rs, k := Runs(init), RunIndex(init, i);
      assert rs[|rs| - 1].1 == init[|init| - 1].ordinal < t;
      assert init[i] == d[i];
      RunsStep(d);
      if d[|d| - 2].resSeq == d[|d| - 1].resSeq && k == |rs| - 1 {
        assert Runs(d)[k] == (rs[k].0, t);
      } else {
        assert Runs(d)[k] == rs[k];
      }
    }
  }

  /** Every range record lies inside one of the ranges. */
  lemma RunsCover(d: seq<AtomEntry>)
    requires Increasing(d)
    ensures forall i :: 0 <= i < |d| ==> Covers(Runs(d), d[i].ordinal)
  {
    forall i | 0 <= i < |d| ensures Covers(Runs(d), d[i].ordinal) {
      RunIndexCovers(d, i);
    }
  }

  /** The places where the residue number differs from the previous range
      record's. */
  function Changes(d: seq<AtomEntry>): nat {
    if |d| <= 1 then 0
    else Changes(d[..|d| - 1]) + (if d[|d| - 2].resSeq != d[|d| - 1].resSeq then 1 else 0)
  }

  /** A new range starts exactly at the first record and at each change of
      residue number. */
  lemma {:induction false} RunsCount(d: seq<AtomEntry>)
    requires d != []
    ensures |Runs(d)| == Changes(d) + 1
  {
    var init := d[..|d| - 1];
    if init != [] {
      RunsCount(init);
    }
  }

  /** The ranges of the records are ordered, disjoint and cover every range
      record, and their number is one more than the residue changes. */
  lemma RangesSpec(entries: seq<AtomEntry>, template: string)
    requires Increasing(entries)
    ensures var d := RangeEntries(entries, template);
            var ranges := Runs(d);
            Ordered(ranges)
            && (forall i :: 0 <= i < |d| ==> Covers(ranges, d[i].ordinal))
            && (d != [] ==> |ranges| == Changes(d) + 1)
  {
    var d := RangeEntries(entries, template);
    FilterIncreasing(entries, RangeKeep(template));
    RunsOrdered(d);
    RunsCover(d);
    if d != [] {
      RunsCount(d);
    }
  }

  /** No record is a DVO, DVM, DVP or template record. */
  predicate NoRangeRecords(entries: seq<AtomEntry>, template: string) {
    forall i :: 0 <= i < |entries| ==> !IsRangeResidue(entries[i], template)
  }

  /** There are no ranges exactly when there are no range records. */
  lemma RangesEmpty(entries: seq<AtomEntry>, template: string)
    ensures Runs(RangeEntries(entries, template)) == [] <==> NoRangeRecords(entries, template)
  {
    var d := RangeEntries(entries, template);
    if d != [] {
      assert d[0] in entries;
    }
  }

  /** The ranges `get_indices` returns are ordered and disjoint, and there
      are none exactly when no ATOM record is a DVO, DVM, DVP or template
      record. */
  lemma IndicesRanges(lines: seq<string>, template: string)
    requires Indices(lines, template).Ok?
    ensures Ordered(Indices(lines, template).value.ranges)
    ensures Indices(lines, template).value.ranges == [] <==> NoRangeRecords(Entries(lines).value, template)
  {
    var entries := Entries(lines).value;
    assert Indices(lines, template).value.ranges == Runs(RangeEntries(entries, template));
    assert Increasing(entries);
    FilterIncreasing(entries, RangeKeep(template));
    RunsOrdered(RangeEntries(entries, template));
    RangesEmpty(entries, template);
  }

  /** The `k`-th nitrogen number is the number of a surfactant N record. */
  lemma NitrogenAt(entries: seq<AtomEntry>, k: nat)
    requires forall i :: 0 <= i < |entries| ==> entries[i].ordinal == i + 1
    requires k < |NitrogenIndices(entries)|
    ensures 1 <= NitrogenIndices(entries)[k] <= |entries|
    ensures IsNitrogen(entries[NitrogenIndices(entries)[k] - 1])
  {
    var f := Filter(entries, IsNitrogen);
    var i :| 0 <= i < |entries| && entries[i] == f[k];
  }

  /** The nitrogen numbers are numbers of surfactant N records, strictly
      increasing. */
  lemma NitrogenSound(entries: seq<AtomEntry>)
    requires forall i :: 0 <= i < |entries| ==> entries[i].ordinal == i + 1
    ensures forall k :: 0 <= k < |NitrogenIndices(entries)| ==>
              1 <= NitrogenIndices(entries)[k] <= |entries| && IsNitrogen(entries[NitrogenIndices(entries)[k] - 1])
    ensures forall k, l :: 0 <= k < l < |NitrogenIndices(entries)| ==>
              NitrogenIndices(entries)[k] < NitrogenIndices(entries)[l]
  {
    assert Increasing(entries);
    FilterIncreasing(entries, IsNitrogen);
    forall k | 0 <= k < |NitrogenIndices(entries)|
      ensures 1 <= NitrogenIndices(entries)[k] <= |entries| && IsNitrogen(entries[NitrogenIndices(entries)[k] - 1])
    {
      NitrogenAt(entries, k);
    }
  }

  /** Every surfactant N record's number is among the nitrogen numbers. */
  lemma NitrogenComplete(entries: seq<AtomEntry>)
    requires forall i :: 0 <= i < |entries| ==> entries[i].ordinal == i + 1
    ensures forall i :: 0 <= i < |entries| && IsNitrogen(entries[i]) ==> i + 1 in NitrogenIndices(entries)
  {
    var f := Filter(entries, IsNitrogen);
    var n := NitrogenIndices(entries);
    forall i | 0 <= i < |entries| && IsNitrogen(entries[i]) ensures i + 1 in n {
      var k :| 0 <= k < |f| && f[k] == entries[i];
      assert n[k] == i + 1;
    }
  }

  /** The `k`-th C6 string is the number of a surfactant C6 record. */
  lemma C6At(entries: seq<AtomEntry>, k: nat) returns (i: nat)
    requires forall i :: 0 <= i < |entries| ==> entries[i].ordinal == i + 1
    requires k < |C6Indices(entries)|
    ensures i < |entries| && IsC6(entries[i]) && C6Indices(entries)[k] == ShowInt(i + 1)
  {
    var f := Filter(entries, IsC6);
    i :| 0 <= i < |entries| && entries[i] == f[k];
  }

  /** The C6 strings read back, with `int()`, as numbers of surfactant C6
      records. */
  lemma C6Sound(entries: seq<AtomEntry>)
    requires forall i :: 0 <= i < |entries| ==> entries[i].ordinal == i + 1
    ensures forall k :: 0 <= k < |C6Indices(entries)| ==>
              ParseInt(C6Indices(entries)[k]).Ok?
              && 1 <= ParseInt(C6Indices(entries)[k]).value <= |entries|
              && IsC6(entries[ParseInt(C6Indices(entries)[k]).value - 1])
  {
    var c6 := C6Indices(entries);
    forall k | 0 <= k < |c6|
      ensures ParseInt(c6[k]).Ok? && 1 <= ParseInt(c6[k]).value <= |entries| && IsC6(entries[ParseInt(c6[k]).value - 1])
    {
      var i := C6At(entries, k);
      ParseShowInt(i + 1);
    }
  }

  /** Every surfactant C6 record's number is among the C6 strings. */
  lemma C6Complete(entries: seq<AtomEntry>)
    requires forall i :: 0 <= i < |entries| ==> entries[i].ordinal == i + 1
    ensures forall i :: 0 <= i < |entries| && IsC6(entries[i]) ==> ShowInt(i + 1) in C6Indices(entries)
  {
    var f := Filter(entries, IsC6);
    var c6 := C6Indices(entries);
    forall i | 0 <= i < |entries| && IsC6(entries[i]) ensures ShowInt(i + 1) in c6 {
      var k :| 0 <= k < |f| && f[k] == entries[i];
      assert c6[k] == ShowInt(i + 1);
    }
  }

  /** `process_lines_pair`: the space-separated fields of both lines, the
      first line's first. Whatever the lines hold, the fields split into a
      part for each line that, joined by spaces, gives that line back, so no
      text of a line is lost. */
  function ProcessLinesPair(line1: string, line2: string): (r: seq<string>)
    ensures |r| >= 2
    ensures exists k :: 1 <= k < |r| && Join(r[..k], ' ') == line1 && Join(r[k..], ' ') == line2
  {
    var a := SplitOn(line1, ' ');
    var b := SplitOn(line2, ' ');
    JoinSplitOn(line1, ' ');
    JoinSplitOn(line2, ' ');
    assert (a + b)[..|a|] == a && (a + b)[|a|..] == b;
    a + b
  }

  /** `get_pair_data` over the lines of the bond list: one field list per
      pair of lines, each line stripped first. An odd number of lines fails
      with an `IndexError` on the last, unpaired line. */
  method GetPairData(lines: seq<string>) returns (r: Result<seq<seq<string>>>)
    ensures r.Err? <==> |lines| % 2 == 1
    ensures r.Err? ==> r.error == IndexError
    ensures r.Ok? ==> |r.value| == |lines| / 2
                      && forall k :: 0 <= k < |r.value| ==>
                           r.value[k] == ProcessLinesPair(Strip(lines[2 * k]), Strip(lines[2 * k + 1]))
  {
    var pairsData: seq<seq<string>> := [];
    var i := 0;
    while i < |lines|
      invariant 0 <= i <= |lines| && i % 2 == 0 && |pairsData| == i / 2
      invariant forall k :: 0 <= k < |pairsData| ==>
                  2 * k + 1 < |lines| && pairsData[k] == ProcessLinesPair(Strip(lines[2 * k]), Strip(lines[2 * k + 1]))
      decreases |lines| - i
    {
      var line1 := Strip(lines[i]);
      if i + 1 >= |lines| {
        return Err(IndexError);
      }
      var line2 := Strip(lines[i + 1]);
      var pairData := ProcessLinesPair(line1, line2);
      pairsData := pairsData + [pairData];
      i := i + 2;
    }
    return Ok(pairsData);
  }

  /** Fields without whitespace, joined by single spaces: a line as the bond
      list holds it. */
  predicate PlainFields(fields: seq<string>) {
    |fields| >= 1 && forall i :: 0 <= i < |fields| ==> fields[i] != [] && NoSpace(fields[i])
  }

  /** A joined line of plain fields starts with the first field's first
      character and ends with the last field's last character. */
  lemma {:induction false} JoinEnds(fields: seq<string>)
    requires PlainFields(fields)
    ensures var s := Join(fields, ' ');
            s != [] && s[0] == fields[0][0] && s[|s| - 1] == fields[|fields| - 1][|fields[|fields| - 1]| - 1]
  {
    if |fields| > 1 {
      JoinEnds(fields[1..]);
    }
  }

  /** The fields of a bond-list line survive stripping and the trailing
      newline. */
  lemma StripLine(fields: seq<string>)
    requires PlainFields(fields)
    ensures Strip(Join(fields, ' ') + "\n") == Join(fields, ' ')
  {
    JoinEnds(fields);
    StripFramed("", Join(fields, ' '), "\n");
    assert "" + Join(fields, ' ') + "\n" == Join(fields, ' ') + "\n";
  }

  /** Reading two written lines of plain fields back gives the fields of the
      first line followed by those of the second. */
  lemma ProcessLinesPairRoundTrip(fields1: seq<string>, fields2: seq<string>)
    requires PlainFields(fields1) && PlainFields(fields2)
    ensures ProcessLinesPair(Strip(Join(fields1, ' ') + "\n"), Strip(Join(fields2, ' ') + "\n"))
            == fields1 + fields2
  {
    StripLine(fields1);
    StripLine(fields2);
    SplitOnJoin(fields1, ' ');
    SplitOnJoin(fields2, ' ');
  }
}
