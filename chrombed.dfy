/** `chromosome_bed`: a BED file with one whole-chromosome interval
    (`name`, 0, length) per listed chromosome.  The length lookup in the
    alignment file is a parameter; `None` stands for a lookup that raises,
    which the bare `except` turns into `sys.exit(1)`. */
module ChromosomeBed {
  import opened Results
  import opened Seqs
  import opened Text
  import opened Intervals

  datatype ChromosomeBedError = LengthNotFound(chromosome: string)

  /** `"{}\t{}\t{}\n".format(i, "0", l)`. */
  function BedLine(name: string, length: nat): string
  {
    name + "\t0\t" + NatToString(length) + "\n"
  }

  /** The file contents for `chromosomes` with the lengths `lengths`. */
  function BedText(chromosomes: seq<string>, lengths: seq<nat>): string
    requires |lengths| == |chromosomes|
  {
    if chromosomes == [] then ""
    else
      var n := |chromosomes| - 1;
      BedText(chromosomes[..n], lengths[..n]) + BedLine(chromosomes[n], lengths[n])
  }

  /** Reading one BED line (without its newline) back as an interval. */
  function BedFields(line: string): Option<Interval>
  {
    var f := Split(line, '\t');
    if |f| == 3 && ParseNat(f[1]).Some? && ParseNat(f[2]).Some? then
      Some(Interval(f[0], ParseNat(f[1]).value, ParseNat(f[2]).value))
    else None
  }

  /** Reading a whole BED text back: newline-terminated lines of intervals. */
  function ReadBed(text: string): Option<seq<Interval>>
  {
    var lines := Split(text, '\n');
    if lines[|lines| - 1] != "" then None
    else ReadLines(lines[..|lines| - 1])
  }

  function ReadLines(lines: seq<string>): Option<seq<Interval>>
  {
    if lines == [] then Some([])
    else
      var first := BedFields(lines[0]);
      var rest := ReadLines(lines[1..]);
      if first.None? || rest.None? then None else Some([first.value] + rest.value)
  }

  /** One line reads back as the whole-chromosome interval it was written for. */
  lemma BedLineFields(name: string, length: nat)
    requires '\t' !in name
    ensures BedFields(name + "\t0\t" + NatToString(length)) == Some(Interval(name, 0, length))
  {
    var digits := NatToString(length);
    assert '\t' !in digits;
    assert name + "\t0\t" + digits == name + ['\t'] + ("0" + ['\t'] + digits);
    SplitAtFirst(name, '\t', "0" + ['\t'] + digits);
    SplitAtFirst("0", '\t', digits);
    SplitNoSeparator(digits, '\t');
    assert NatToString(0) == "0";
    ParseNatToString(0);
    ParseNatToString(length);
  }

  /** The interval list a file for `chromosomes` and `lengths` reads back as. */
  function WholeChromosomes(chromosomes: seq<string>, lengths: seq<nat>): (r: seq<Interval>)
    requires |lengths| == |chromosomes|
    ensures |r| == |chromosomes|
    ensures forall i :: 0 <= i < |r| ==> r[i] == Interval(chromosomes[i], 0, lengths[i])
  {
    seq(|chromosomes|, i requires 0 <= i < |chromosomes| => Interval(chromosomes[i], 0, lengths[i]))
  }

  function Bodies(chromosomes: seq<string>, lengths: seq<nat>): (r: seq<string>)
    requires |lengths| == |chromosomes|
    ensures |r| == |chromosomes|
  {
    seq(|chromosomes|, i requires 0 <= i < |chromosomes| => chromosomes[i] + "\t0\t" + NatToString(lengths[i]))
  }

  /** Lines each followed by a newline. */
  function Terminated(lines: seq<string>): string
  {
    if lines == [] then "" else lines[0] + "\n" + Terminated(lines[1..])
  }

  lemma {:induction false} TerminatedAppend(lines: seq<string>, line: string)
    ensures Terminated(lines + [line]) == Terminated(lines) + line + "\n"
  {
    if lines != [] {
      assert (lines + [line])[1..] == lines[1..] + [line];
      TerminatedAppend(lines[1..], line);
    } else {
      assert [line][1..] == [];
    }
  }

  /** Split at newlines, newline-terminated lines give the lines and "". */
  lemma {:induction false} SplitTerminated(lines: seq<string>)
    requires forall i :: 0 <= i < |lines| ==> '\n' !in lines[i]
    ensures Split(Terminated(lines), '\n') == lines + [""]
  {
    if lines != [] {
      SplitTerminated(lines[1..]);
      assert lines[0] + "\n" + Terminated(lines[1..]) == lines[0] + ['\n'] + Terminated(lines[1..]);
      SplitAtFirst(lines[0], '\n', Terminated(lines[1..]));
      assert [lines[0]] + (lines[1..] + [""]) == lines + [""];
    }
  }

  lemma {:induction false} BedTextTerminated(chromosomes: seq<string>, lengths: seq<nat>)
    requires |lengths| == |chromosomes|
    ensures BedText(chromosomes, lengths) == Terminated(Bodies(chromosomes, lengths))
  {
    if chromosomes != [] {
      var n := |chromosomes| - 1;
      BedTextTerminated(chromosomes[..n], lengths[..n]);
      var b := Bodies(chromosomes, lengths);
      assert forall k :: 0 <= k < n ==> b[k] == Bodies(chromosomes[..n], lengths[..n])[k];
      assert b == Bodies(chromosomes[..n], lengths[..n]) + [b[n]];
      TerminatedAppend(Bodies(chromosomes[..n], lengths[..n]), b[n]);
    }
  }

  /** The written file is exactly the list of whole-chromosome intervals:
      reading it back gives one interval (name, 0, length) per chromosome,
      in order.  Names hold no tab or newline, as in a BAM header. */
  lemma BedTextReadsBack(chromosomes: seq<string>, lengths: seq<nat>)
    requires |lengths| == |chromosomes|
    requires forall i :: 0 <= i < |chromosomes| ==> '\t' !in chromosomes[i] && '\n' !in chromosomes[i]
    ensures ReadBed(BedText(chromosomes, lengths)) == Some(WholeChromosomes(chromosomes, lengths))
  {
    var lines := Bodies(chromosomes, lengths);
    forall i | 0 <= i < |lines|
      ensures '\n' !in lines[i]
    {
      assert '\n' !in NatToString(lengths[i]);
    }
    BedTextTerminated(chromosomes, lengths);
    SplitTerminated(lines);
    assert (lines + [""])[..|lines + [""]| - 1] == lines;
    ReadBodies(chromosomes, lengths);
  }

  lemma {:induction false} ReadBodies(chromosomes: seq<string>, lengths: seq<nat>)
    requires |lengths| == |chromosomes|
    requires forall i :: 0 <= i < |chromosomes| ==> '\t' !in chromosomes[i]
    ensures ReadLines(Bodies(chromosomes, lengths)) == Some(WholeChromosomes(chromosomes, lengths))
    decreases |chromosomes|
  {
    if chromosomes != [] {
      var b := Bodies(chromosomes, lengths);
      ReadBodies(chromosomes[1..], lengths[1..]);
      assert b[1..] == Bodies(chromosomes[1..], lengths[1..]);
      BedLineFields(chromosomes[0], lengths[0]);
      var w := WholeChromosomes(chromosomes, lengths);
      assert w == [w[0]] + WholeChromosomes(chromosomes[1..], lengths[1..]);
    }
  }

  /** The loop of `chromosome_bed`, with `lengthOf` the length lookup:
      the first chromosome without a length ends the program; otherwise
      the file holds one line per chromosome. */
  method WriteChromosomeBed(chromosomes: seq<string>, lengthOf: string -> Option<nat>)
    returns (r: Result<string, ChromosomeBedError>)
    ensures r.Success? <==> forall i :: 0 <= i < |chromosomes| ==> lengthOf(chromosomes[i]).Some?
    ensures r.Failure? ==>
      exists i :: 0 <= i < |chromosomes| && lengthOf(chromosomes[i]).None? &&
        r.error == LengthNotFound(chromosomes[i]) &&
        forall k :: 0 <= k < i ==> lengthOf(chromosomes[k]).Some?
    ensures r.Success? ==>
      var lengths := seq(|chromosomes|, i requires 0 <= i < |chromosomes| && lengthOf(chromosomes[i]).Some? =>
        lengthOf(chromosomes[i]).value);
      r.value == BedText(chromosomes, lengths)
  {
    var text := "";
    var lengths: seq<nat> := [];
    var i := 0;
    while i < |chromosomes|
      invariant 0 <= i <= |chromosomes| && |lengths| == i
      invariant forall k :: 0 <= k < i ==> lengthOf(chromosomes[k]) == Some(lengths[k])
      invariant text == BedText(chromosomes[..i], lengths)
    {
      var l := lengthOf(chromosomes[i]);
      if l.None? {
        return Failure(LengthNotFound(chromosomes[i]));
      }
      assert chromosomes[..i + 1][..i] == chromosomes[..i];
      assert (lengths + [l.value])[..i] == lengths;
      text := text + BedLine(chromosomes[i], l.value);
      lengths := lengths + [l.value];
      i := i + 1;
    }
    assert chromosomes[..i] == chromosomes;
    assert lengths == seq(|chromosomes|, i requires 0 <= i < |chromosomes| && lengthOf(chromosomes[i]).Some? =>
        lengthOf(chromosomes[i]).value);
    return Success(text);
  }

  /** As written the lookup calls a bare `get_length`, which this module
      never defines or imports: every lookup raises `NameError`. */
  function AsWrittenLookup(chromosome: string): Option<nat>
  {
    None
  }

  /** `chromosome_bed` as written: whatever the alignment file holds, it
      exits on its first chromosome, since that chromosome's length lookup
      raises. */
  method ChromosomeBedAsWritten(chromosomes: seq<string>) returns (r: Result<string, ChromosomeBedError>)
    requires chromosomes != []
    ensures r == Failure(LengthNotFound(chromosomes[0]))
  {
    r := WriteChromosomeBed(chromosomes, AsWrittenLookup);
  }
}
