/** The line emitters of the constraint generator
    (constraining_pairs/md_utils.py). Each appends text to an open output
    file; the file is modelled as the sequence of texts written to it, one
    element per `write` call. The emitters write PLUMED input: a centre of
    mass per residue range, labelled `TEMPL` for the first range and `DVB01`,
    `DVB02`, … for the others, a distance to each of those labels, and wall
    and MATHEVAL lines. */
module MdUtils {
  import opened Text

  /** An output file opened for writing. */
  class OutputStream {
    var written: seq<string>

    constructor ()
      ensures written == []
    {
      written := [];
    }

    /** `output_file.write(text)`. */
    method Write(text: string)
      modifies this
      ensures written == old(written) + [text]
    {
      written := written + [text];
    }
  }

  const TEMPLATE_LABEL: string := "TEMPL"
  const DVB_PREFIX: string := "DVB"

  /** The label of the `i`-th range, counting from 1: `TEMPL` for the first,
      `DVB{i-1:02}` for the others. */
  function RangeLabel(i: nat): string
    requires i >= 1
  {
    if i == 1 then TEMPLATE_LABEL else DVB_PREFIX + Pad2(i - 1)
  }

  /** What follows the label and its colon on a centre-of-mass line. */
  function ComBody(range: (int, int)): string {
    " COM ATOMS=" + ShowInt(range.0) + "-" + ShowInt(range.1) + "\n"
  }

  /** The centre-of-mass line of the `i`-th range:
      `<label>: COM ATOMS=<start>-<end>`. */
  function StartEndLine(i: nat, range: (int, int)): string
    requires i >= 1
  {
    RangeLabel(i) + ":" + ComBody(range)
  }

  /** What precedes the comma and the label on a distance line. */
  function DistanceHead(i: nat): string {
    "dist" + Pad2(i) + ": DISTANCE ATOMS=centerTail"
  }

  /** The distance line of the `i`-th range:
      `dist<i:02>: DISTANCE ATOMS=centerTail,<label>`. */
  function DistanceLine(i: nat): string
    requires i >= 1
  {
    DistanceHead(i) + ("," + RangeLabel(i) + "\n")
  }

  /** The lines `write_start_end_idx` writes, one per range, in order. */
  function StartEndLines(ranges: seq<(int, int)>): seq<string> {
    seq(|ranges|, k requires 0 <= k < |ranges| => StartEndLine(k + 1, ranges[k]))
  }

  /** The lines `write_distance_of_ranges` writes for `n` ranges. */
  function DistanceLines(n: nat): seq<string> {
    seq(n, k requires 0 <= k < n => DistanceLine(k + 1))
  }

  /** Writing the next line of `lines` after its first `i - 1`. */
  lemma PrefixStep(before: seq<string>, lines: seq<string>, i: nat)
    requires 1 <= i <= |lines|
    ensures before + lines[..i] == before + lines[..i - 1] + [lines[i - 1]]
  {
    assert lines[..i] == lines[..i - 1] + [lines[i - 1]];
  }

  /** `write_start_end_idx`: one centre-of-mass line per range. */
  method WriteStartEndIdx(out: OutputStream, ranges: seq<(int, int)>)
    modifies out
    ensures out.written == old(out.written) + StartEndLines(ranges)
  {
    ghost var before := out.written;
    ghost var lines := StartEndLines(ranges);
    for i := 1 to |ranges| + 1
      invariant out.written == before + lines[..i - 1]
    {
      var range := ranges[i - 1];
      var text;
      if i == 1 {
        text := TEMPLATE_LABEL + ":" + ComBody(range);
      } else {
        text := DVB_PREFIX + Pad2(i - 1) + ":" + ComBody(range);
      }
      assert text == lines[i - 1];
      out.Write(text);
      PrefixStep(before, lines, i);
    }
    assert lines[..|ranges|] == lines;
  }

  /** `write_distance_of_ranges`: one distance line per range. */
  method WriteDistanceOfRanges(out: OutputStream, ranges: seq<(int, int)>)
    modifies out
    ensures out.written == old(out.written) + DistanceLines(|ranges|)
  {
    ghost var before := out.written;
    ghost var lines := DistanceLines(|ranges|);
    for i := 1 to |ranges| + 1
      invariant out.written == before + lines[..i - 1]
    {
      var text;
      if i == 1 {
        text := DistanceHead(i) + ("," + TEMPLATE_LABEL + "\n");
      } else {
        text := DistanceHead(i) + ("," + (DVB_PREFIX + Pad2(i - 1)) + "\n");
      }
      assert text == lines[i - 1];
      out.Write(text);
      PrefixStep(before, lines, i);
    }
    assert lines[..|ranges|] == lines;
  }

  /** Distinct ranges get distinct labels. */
  lemma RangeLabelsDistinct(i: nat, j: nat)
    requires i >= 1 && j >= 1 && i != j
    ensures RangeLabel(i) != RangeLabel(j)
  {
    if i != 1 && j != 1 {
      DvbLabelsDistinct(i - 1, j - 1);
    } else if i == 1 {
      DvbLabelNotTemplate(j - 1);
    } else {
      DvbLabelNotTemplate(i - 1);
    }
  }

  /** Two `DVB` labels differ when their numbers do. */
  lemma DvbLabelsDistinct(m: nat, n: nat)
    requires m != n
    ensures DVB_PREFIX + Pad2(m) != DVB_PREFIX + Pad2(n)
  {
    PrefixOfConcat(DVB_PREFIX, Pad2(m));
    PrefixOfConcat(DVB_PREFIX, Pad2(n));
    if DVB_PREFIX + Pad2(m) == DVB_PREFIX + Pad2(n) {
      Pad2Injective(m, n);
    }
  }

  /** A `DVB` label is never the template label. */
  lemma DvbLabelNotTemplate(m: nat)
    ensures DVB_PREFIX + Pad2(m) != TEMPLATE_LABEL
  {
    assert (DVB_PREFIX + Pad2(m))[0] == 'D';
  }

  /** A sequence is a prefix of itself followed by anything. */
  lemma PrefixOfConcat(a: string, b: string)
    ensures (a + b)[..|a|] == a && (a + b)[|a|..] == b
  {
  }

  /** The two writers agree on the labels: the centre-of-mass line of the
      `i`-th range starts with its label and a colon, and the `i`-th distance
      line ends with a comma, that same label and the newline. */
  lemma LabelsAgree(i: nat, range: (int, int))
    requires i >= 1
    ensures var name := RangeLabel(i);
            var com, dist := StartEndLine(i, range), DistanceLine(i);
            |name| + 1 <= |com| && com[..|name| + 1] == name + ":"
            && |name| + 2 <= |dist| && dist[|dist| - |name| - 2..] == "," + name + "\n"
  {
    PrefixOfConcat(RangeLabel(i) + ":", ComBody(range));
    PrefixOfConcat(DistanceHead(i), "," + RangeLabel(i) + "\n");
  }

  /** The wall keywords of `write_upper_wall` and `write_lower_wall`. */
  const UPPER_WALLS: string := "UPPER_WALLS"
  const LOWER_WALLS: string := "LOWER_WALLS"

  /** The fields of a wall line: the keyword, the argument, the position,
      the fixed `KAPPA=500000 EXP=2 OFFSET=0` and the label. */
  function WallFields(kind: string, arg: string, at: string, name: string): seq<string> {
    [kind, "ARG=" + arg, "AT=" + at, "KAPPA=500000", "EXP=2", "OFFSET=0", "LABEL=" + name]
  }

  /** The wall line: its fields separated by single spaces. */
  function WallLine(kind: string, arg: string, at: string, name: string): string {
    Join(WallFields(kind, arg, at, name), ' ') + "\n"
  }

  /** `write_upper_wall`. */
  method WriteUpperWall(out: OutputStream, arg: string, at: string, name: string)
    modifies out
    ensures out.written == old(out.written) + [WallLine(UPPER_WALLS, arg, at, name)]
  {
    out.Write(WallLine(UPPER_WALLS, arg, at, name));
  }

  /** `write_lower_wall`. */
  method WriteLowerWall(out: OutputStream, arg: string, at: string, name: string)
    modifies out
    ensures out.written == old(out.written) + [WallLine(LOWER_WALLS, arg, at, name)]
  {
    out.Write(WallLine(LOWER_WALLS, arg, at, name));
  }

  /** The fields of a MATHEVAL line: the label with its colon, `MATHEVAL`,
      the argument, the variable, the function and the fixed `PERIODIC=NO`. */
  function MathevalFields(leadingDec: string, arg: string, variable: string, func: string): seq<string> {
    [leadingDec + ":", "MATHEVAL", "ARG=" + arg, "VAR=" + variable, "FUNC=" + func, "PERIODIC=NO"]
  }

  /** The MATHEVAL line: its fields separated by single spaces. */
  function MathevalLine(leadingDec: string, arg: string, variable: string, func: string): string {
    Join(MathevalFields(leadingDec, arg, variable, func), ' ') + "\n"
  }

  /** `write_matheval`. */
  method WriteMatheval(out: OutputStream, leadingDec: string, arg: string, variable: string, func: string)
    modifies out
    ensures out.written == old(out.written) + [MathevalLine(leadingDec, arg, variable, func)]
  {
    out.Write(MathevalLine(leadingDec, arg, variable, func));
  }

  /** A value that can sit inside one space-separated field of a line. */
  predicate Plain(s: string) {
    ' ' !in s && '\n' !in s
  }

  /** Text ending in one newline and holding no other: exactly one line. */
  predicate OneLine(s: string) {
    s != [] && s[|s| - 1] == '\n' && '\n' !in s[..|s| - 1]
  }

  /** `text + "\n"` is one line when `text` holds no newline. */
  lemma LineOf(text: string)
    requires '\n' !in text
    ensures OneLine(text + "\n") && (text + "\n")[..|text|] == text
  {
    assert (text + "\n")[..|text|] == text;
  }

  /** Fields joined by single spaces hold no newline when no field does. */
  lemma {:induction false} JoinNoNewline(fields: seq<string>)
    requires |fields| >= 1 && forall i :: 0 <= i < |fields| ==> '\n' !in fields[i]
    ensures '\n' !in Join(fields, ' ')
  {
    if |fields| > 1 {
      JoinNoNewline(fields[1..]);
    }
  }

  /** Fields of plain values, each free of spaces and newlines, make one
      line whose space-separated fields read back as the fields. */
  lemma FieldsLine(fields: seq<string>)
    requires |fields| >= 1 && forall i :: 0 <= i < |fields| ==> Plain(fields[i])
    ensures var line := Join(fields, ' ') + "\n";
            OneLine(line) && SplitOn(line[..|line| - 1], ' ') == fields
  {
    SplitOnJoin(fields, ' ');
    JoinNoNewline(fields);
    LineOf(Join(fields, ' '));
  }

  /** A wall line is one line, and with plain values its space-separated
      fields read back as the keyword, `ARG=`, `AT=`, the three fixed
      settings and `LABEL=`. */
  lemma WallLineFields(kind: string, arg: string, at: string, name: string)
    requires Plain(kind) && Plain(arg) && Plain(at) && Plain(name)
    ensures var line := WallLine(kind, arg, at, name);
            OneLine(line) && SplitOn(line[..|line| - 1], ' ') == WallFields(kind, arg, at, name)
  {
    var fields := WallFields(kind, arg, at, name);
    forall i | 0 <= i < |fields| ensures Plain(fields[i]) {
      if i == 1 {
        assert fields[i] == "ARG=" + arg;
      } else if i == 2 {
        assert fields[i] == "AT=" + at;
      } else if i == 6 {
        assert fields[i] == "LABEL=" + name;
      }
    }
    FieldsLine(fields);
  }

  /** A MATHEVAL line is one line, and with plain values its fields read
      back as the label, `MATHEVAL`, `ARG=`, `VAR=`, `FUNC=` and
      `PERIODIC=NO`. */
  lemma MathevalLineFields(leadingDec: string, arg: string, variable: string, func: string)
    requires Plain(leadingDec) && Plain(arg) && Plain(variable) && Plain(func)
    ensures var line := MathevalLine(leadingDec, arg, variable, func);
            OneLine(line) && SplitOn(line[..|line| - 1], ' ') == MathevalFields(leadingDec, arg, variable, func)
  {
    var fields := MathevalFields(leadingDec, arg, variable, func);
    forall i | 0 <= i < |fields| ensures Plain(fields[i]) {
      if i == 0 {
        assert fields[i] == leadingDec + ":";
      } else if i == 2 {
        assert fields[i] == "ARG=" + arg;
      } else if i == 3 {
        assert fields[i] == "VAR=" + variable;
      } else if i == 4 {
        assert fields[i] == "FUNC=" + func;
      }
    }
    FieldsLine(fields);
  }

  /** Labels hold no newline. */
  lemma LabelNoNewline(i: nat)
    requires i >= 1
    ensures '\n' !in RangeLabel(i)
  {
    if i > 1 {
      Pad2NoNewline(i - 1);
    }
  }

  /** Decimal numbers hold no newline. */
  lemma ShowIntNoNewline(n: int)
    ensures '\n' !in ShowInt(n)
  {
    var s := ShowInt(n);
    assert NoSpace(s);
    assert IsSpace('\n');
  }

  /** Zero-padded numbers hold no newline. */
  lemma Pad2NoNewline(n: nat)
    ensures '\n' !in Pad2(n)
  {
    var digits := Pad2(n);
    forall k | 0 <= k < |digits| ensures digits[k] != '\n' {
      assert IsDigit(digits[k]);
    }
  }

  /** A line preceded by text without newlines is still one line. */
  lemma OneLineAfter(head: string, line: string)
    requires '\n' !in head && OneLine(line)
    ensures OneLine(head + line)
  {
    var s := head + line;
    assert s[..|s| - 1] == head + line[..|line| - 1];
  }

  /** Every centre-of-mass line is exactly one line. */
  lemma StartEndOneLine(i: nat, range: (int, int))
    requires i >= 1
    ensures OneLine(StartEndLine(i, range))
  {
    LabelNoNewline(i);
    ShowIntNoNewline(range.0);
    ShowIntNoNewline(range.1);
    LineOf(" COM ATOMS=" + ShowInt(range.0) + "-" + ShowInt(range.1));
    OneLineAfter(RangeLabel(i) + ":", ComBody(range));
  }

  /** Every distance line is exactly one line. */
  lemma DistanceOneLine(i: nat)
    requires i >= 1
    ensures OneLine(DistanceLine(i))
  {
    LabelNoNewline(i);
    Pad2NoNewline(i);
    LineOf("," + RangeLabel(i));
    OneLineAfter(DistanceHead(i), "," + RangeLabel(i) + "\n");
  }
}
