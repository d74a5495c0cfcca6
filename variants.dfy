/** `parse_platypus_VCF`: reads the lines of a Platypus VCF and keeps, for
    the chosen chromosome, the position, quality and read balance (TR/TC)
    of every call that passes its filters; and the `--regions` string
    `platypus_caller` builds.  The lines are given already read; `int()` and
    `float()` are parameters returning `None` where Python raises
    `ValueError`. */
module Variants {
  import opened Results
  import opened Seqs
  import opened Text

  /** One kept call: POS, QUAL, the TR and TC counts and their ratio. */
  datatype Record = Record(pos: int, qual: real, tr: real, tc: real, readBalance: real)

  /** The three parallel lists the parser returns. */
  datatype Calls = Calls(positions: seq<int>, quality: seq<real>, readBalance: seq<real>)

  datatype VcfError =
    | EmptyLine         // `line[0]` on an empty line (IndexError)
    | MissingColumn     // `cols[1]`, `cols[5]` or `cols[7]` past the end (IndexError)
    | MissingInfoField  // fewer than 18 `;`-separated INFO fields (IndexError)
    | MissingValue      // an INFO field without `=` (IndexError)
    | NotANumber        // `int()` or `float()` refused its text (ValueError)

  /** Which lines are read: as written, those whose first character equals
      the chromosome name; evidently meant, those whose CHROM column does. */
  datatype Selection = FirstCharacter | FirstColumn

  /** `field.split('=')[1]`. */
  function InfoValue(field: string): Result<string, VcfError>
  {
    var parts := Split(field, '=');
    if |parts| < 2 then Failure(MissingValue) else Success(parts[1])
  }

  /** The work done on the tab-separated columns of a selected line:
      `Success(None)` where the loop reaches `continue`. */
  function ParseColumns(cols: seq<string>, qualCutoff: real,
                        parseInt: string -> Option<int>, parseFloat: string -> Option<real>)
    : Result<Option<Record>, VcfError>
  {
    if |cols| < 2 then Failure(MissingColumn)
    else if parseInt(cols[1]).None? then Failure(NotANumber)
    else if |cols| < 6 then Failure(MissingColumn)
    else if parseFloat(cols[5]).None? then Failure(NotANumber)
    else
      var pos := parseInt(cols[1]).value;
      var qual := parseFloat(cols[5]).value;
      if qual < qualCutoff then Success(None)
      else if |cols| < 8 then Failure(MissingColumn)
      else
        var info := Split(cols[7], ';');
        if |info| < 18 then Failure(MissingInfoField)
        else if InfoValue(info[17]).Failure? || InfoValue(info[14]).Failure? then Failure(MissingValue)
        else
          var tr := InfoValue(info[17]).value;
          var tc := InfoValue(info[14]).value;
          if ',' in tr || ',' in tc then Success(None)
          else if parseFloat(tr).None? then Failure(NotANumber)
          else if parseFloat(tr).value == 0.0 then Success(None)
          else if parseFloat(tc).None? then Failure(NotANumber)
          else if parseFloat(tc).value == 0.0 then Success(None)
          else
            var trv := parseFloat(tr).value;
            var tcv := parseFloat(tc).value;
            Success(Some(Record(pos, qual, trv, tcv, trv / tcv)))
  }

  /** The columns of a line: `line.strip('\n').split('\t')`. */
  function Columns(line: string): seq<string>
  {
    Split(Strip(line, {'\n'}), '\t')
  }

  /** One pass of the loop body on `line`. */
  function ParseLine(line: string, qualCutoff: real, chrom: string, selection: Selection,
                     parseInt: string -> Option<int>, parseFloat: string -> Option<real>)
    : Result<Option<Record>, VcfError>
  {
    match selection
    case FirstCharacter =>
      if line == [] then Failure(EmptyLine)
      else if [line[0]] != chrom then Success(None)
      else ParseColumns(Columns(line), qualCutoff, parseInt, parseFloat)
    case FirstColumn =>
      if Columns(line)[0] != chrom then Success(None)
      else ParseColumns(Columns(line), qualCutoff, parseInt, parseFloat)
  }

  /** The loop over `lines` with `step` for its body: the records kept, in
      line order, or the error of the first line that raises. */
  function Kept(step: string -> Result<Option<Record>, VcfError>, lines: seq<string>)
    : Result<seq<Record>, VcfError>
  {
    if lines == [] then Success([])
    else
      var n := |lines| - 1;
      var before := Kept(step, lines[..n]);
      if before.Failure? then before
      else
        var last := step(lines[n]);
        if last.Failure? then Failure(last.error)
        else if last.value.None? then before
        else Success(before.value + [last.value.value])
  }

  /** The loop body of `parse_platypus_VCF`, as a function of the line. */
  function LineParser(qualCutoff: real, chrom: string, selection: Selection,
                      parseInt: string -> Option<int>, parseFloat: string -> Option<real>)
    : string -> Result<Option<Record>, VcfError>
  {
    line => ParseLine(line, qualCutoff, chrom, selection, parseInt, parseFloat)
  }

  /** The records `parse_platypus_VCF` keeps from `lines`. */
  function KeptRecords(lines: seq<string>, qualCutoff: real, chrom: string, selection: Selection,
                       parseInt: string -> Option<int>, parseFloat: string -> Option<real>)
    : Result<seq<Record>, VcfError>
  {
    Kept(LineParser(qualCutoff, chrom, selection, parseInt, parseFloat), lines)
  }

  /** The parser's three lists, one entry per kept record, in order. */
  function CallsOf(records: seq<Record>): (c: Calls)
    ensures |c.positions| == |c.quality| == |c.readBalance| == |records|
    ensures forall i :: 0 <= i < |records| ==>
      c.positions[i] == records[i].pos && c.quality[i] == records[i].qual &&
      c.readBalance[i] == records[i].readBalance
  {
    Calls(seq(|records|, i requires 0 <= i < |records| => records[i].pos),
          seq(|records|, i requires 0 <= i < |records| => records[i].qual),
          seq(|records|, i requires 0 <= i < |records| => records[i].readBalance))
  }

  function MapCalls(r: Result<seq<Record>, VcfError>): Result<Calls, VcfError>
  {
    if r.Failure? then Failure(r.error) else Success(CallsOf(r.value))
  }

  /** The loop of `parse_platypus_VCF` as written: it appends each kept
      call to the three lists and stops at the first line that raises. */
  method ParsePlatypusVcf(lines: seq<string>, qualCutoff: real, chrom: string,
                          parseInt: string -> Option<int>, parseFloat: string -> Option<real>)
    returns (r: Result<Calls, VcfError>)
    ensures r == MapCalls(KeptRecords(lines, qualCutoff, chrom, FirstCharacter, parseInt, parseFloat))
  {
    ghost var step := LineParser(qualCutoff, chrom, FirstCharacter, parseInt, parseFloat);
    ghost var records: seq<Record> := [];
    var positions: seq<int> := [];
    var quality: seq<real> := [];
    var readBalance: seq<real> := [];
    var i := 0;
    while i < |lines|
      invariant 0 <= i <= |lines|
      invariant Kept(step, lines[..i]) == Success(records)
      invariant Calls(positions, quality, readBalance) == CallsOf(records)
    {
      var outcome := ParseLine(lines[i], qualCutoff, chrom, FirstCharacter, parseInt, parseFloat);
      assert step(lines[i]) == outcome;
      KeptNextLine(step, lines, i);
      i := i + 1;
      if outcome.Failure? {
        KeptFailurePersists(step, lines, i);
        return Failure(outcome.error);
      }
      if outcome.value.Some? {
        var rec := outcome.value.value;
        CallsOfAppend(records, rec);
        readBalance := readBalance + [rec.readBalance];
        positions := positions + [rec.pos];
        quality := quality + [rec.qual];
        records := records + [rec];
      }
    }
    assert lines[..i] == lines;
    return Success(Calls(positions, quality, readBalance));
  }

  /** Reading one more line: its error, its record or nothing is added to
      what the earlier lines gave. */
  lemma KeptNextLine(step: string -> Result<Option<Record>, VcfError>, lines: seq<string>, i: nat)
    requires i < |lines|
    ensures var before := Kept(step, lines[..i]);
      Kept(step, lines[..i + 1]) ==
        if before.Failure? then before
        else if step(lines[i]).Failure? then Failure(step(lines[i]).error)
        else if step(lines[i]).value.None? then before
        else Success(before.value + [step(lines[i]).value.value])
  {
    assert lines[..i + 1][..i] == lines[..i];
  }

  lemma CallsOfAppend(records: seq<Record>, rec: Record)
    ensures var c := CallsOf(records);
      CallsOf(records + [rec]) ==
        Calls(c.positions + [rec.pos], c.quality + [rec.qual], c.readBalance + [rec.readBalance])
  {
  }

  /** Parsing a file in two parts: the records of the first part come
      first, and the first error (in line order) wins. */
  lemma {:induction false} KeptAppend(step: string -> Result<Option<Record>, VcfError>, a: seq<string>, b: seq<string>)
    ensures var ra := Kept(step, a);
      var rb := Kept(step, b);
      Kept(step, a + b) == if ra.Failure? then ra else if rb.Failure? then rb else Success(ra.value + rb.value)
    decreases |b|
  {
    var ra := Kept(step, a);
    if b == [] {
      assert a + b == a;
      if ra.Success? {
        assert ra.value + [] == ra.value;
      }
    } else {
      var n := |b| - 1;
      assert (a + b)[..|a + b| - 1] == a + b[..n];
      assert (a + b)[|a + b| - 1] == b[n];
      KeptAppend(step, a, b[..n]);
      var rb' := Kept(step, b[..n]);
      var last := step(b[n]);
      if ra.Success? && rb'.Success? && last.Success? && last.value.Some? {
        assert (ra.value + rb'.value) + [last.value.value] == ra.value + (rb'.value + [last.value.value]);
      }
    }
  }

  /** Once a line raises, the whole parse fails with that error. */
  lemma KeptFailurePersists(step: string -> Result<Option<Record>, VcfError>, lines: seq<string>, k: nat)
    requires k <= |lines|
    requires Kept(step, lines[..k]).Failure?
    ensures Kept(step, lines) == Kept(step, lines[..k])
  {
    KeptAppend(step, lines[..k], lines[k..]);
    assert lines[..k] + lines[k..] == lines;
  }

  /** One line on its own: its record if kept, nothing if skipped. */
  lemma KeptSingleLine(step: string -> Result<Option<Record>, VcfError>, line: string)
    ensures Kept(step, [line]) ==
      if step(line).Failure? then Failure(step(line).error)
      else if step(line).value.None? then Success([])
      else Success([step(line).value.value])
  {
    assert [line][..0] == [];
    assert [line][0] == line;
    if step(line).Success? && step(line).value.Some? {
      assert [] + [step(line).value.value] == [step(line).value.value];
    }
  }

  /** The line is read at all: as written, its first character is the
      chromosome name; as evidently meant, its CHROM column is. */
  predicate Selected(line: string, chrom: string, selection: Selection)
  {
    match selection
    case FirstCharacter => line != [] && [line[0]] == chrom
    case FirstColumn => Columns(line)[0] == chrom
  }

  /** The columns hold `rec`'s numbers where the parser looks for them: POS
      in column 2, QUAL in column 6, and TR and TC as the values (after the
      `=`) of the 18th and the 15th `;`-separated fields of the INFO column 8,
      neither value holding a comma. */
  predicate Carries(cols: seq<string>, parseInt: string -> Option<int>, parseFloat: string -> Option<real>,
                    rec: Record)
  {
    |cols| >= 8 && parseInt(cols[1]) == Some(rec.pos) && parseFloat(cols[5]) == Some(rec.qual) &&
    var info := Split(cols[7], ';');
    |info| >= 18 &&
    var trField, tcField := Split(info[17], '='), Split(info[14], '=');
    |trField| >= 2 && |tcField| >= 2 && ',' !in trField[1] && ',' !in tcField[1] &&
    parseFloat(trField[1]) == Some(rec.tr) && parseFloat(tcField[1]) == Some(rec.tc)
  }

  /** The filters a kept call has passed: quality at least the cutoff, TR
      and TC non-zero, and the read balance their ratio. */
  predicate PassedFilters(rec: Record, qualCutoff: real)
  {
    rec.qual >= qualCutoff && rec.tr != 0.0 && rec.tc != 0.0 && rec.readBalance == rec.tr / rec.tc
  }

  /** A line gives the call `rec` exactly when it is selected, its columns
      carry `rec`'s numbers and `rec` passes the filters. */
  lemma ParseLineKeeps(line: string, qualCutoff: real, chrom: string, selection: Selection,
                       parseInt: string -> Option<int>, parseFloat: string -> Option<real>, rec: Record)
    ensures ParseLine(line, qualCutoff, chrom, selection, parseInt, parseFloat) == Success(Some(rec)) <==>
      Selected(line, chrom, selection) && Carries(Columns(line), parseInt, parseFloat, rec) &&
      PassedFilters(rec, qualCutoff)
  {
    ParseColumnsKeeps(Columns(line), qualCutoff, parseInt, parseFloat, rec);
  }

  /** The columns of a selected line give `rec` exactly when they carry it
      and it passes the filters. */
  lemma ParseColumnsKeeps(cols: seq<string>, qualCutoff: real,
                          parseInt: string -> Option<int>, parseFloat: string -> Option<real>, rec: Record)
    ensures ParseColumns(cols, qualCutoff, parseInt, parseFloat) == Success(Some(rec)) <==>
      Carries(cols, parseInt, parseFloat, rec) && PassedFilters(rec, qualCutoff)
  {
    if Carries(cols, parseInt, parseFloat, rec) && PassedFilters(rec, qualCutoff) {
      var info := Split(cols[7], ';');
      assert InfoValue(info[17]) == Success(Split(info[17], '=')[1]);
      assert InfoValue(info[14]) == Success(Split(info[14], '=')[1]);
    }
  }

  /** The first `continue`: a line of another chromosome is skipped. */
  lemma ParseLineSkipsOtherChromosome(line: string, qualCutoff: real, chrom: string, selection: Selection,
                                      parseInt: string -> Option<int>, parseFloat: string -> Option<real>)
    requires !Selected(line, chrom, selection)
    requires selection == FirstCharacter ==> line != []
    ensures ParseLine(line, qualCutoff, chrom, selection, parseInt, parseFloat) == Success(None)
  {
  }

  /** The second `continue`: a call below the quality cutoff is skipped
      before its INFO column is looked at. */
  lemma ParseLineSkipsLowQuality(line: string, qualCutoff: real, chrom: string, selection: Selection,
                                 parseInt: string -> Option<int>, parseFloat: string -> Option<real>)
    requires Selected(line, chrom, selection)
    requires |Columns(line)| >= 6 && parseInt(Columns(line)[1]).Some?
    requires parseFloat(Columns(line)[5]).Some? && parseFloat(Columns(line)[5]).value < qualCutoff
    ensures ParseLine(line, qualCutoff, chrom, selection, parseInt, parseFloat) == Success(None)
  {
  }

  /** The last two `continue`s: once the 18th and 15th INFO fields have
      values, a comma in either, or a zero TR or TC, skips the line. */
  lemma ParseLineSkipsCounts(line: string, qualCutoff: real, chrom: string, selection: Selection,
                             parseInt: string -> Option<int>, parseFloat: string -> Option<real>)
    requires Selected(line, chrom, selection)
    requires |Columns(line)| >= 8 && parseInt(Columns(line)[1]).Some?
    requires parseFloat(Columns(line)[5]).Some? && parseFloat(Columns(line)[5]).value >= qualCutoff
    requires |Split(Columns(line)[7], ';')| >= 18
    requires |Split(Split(Columns(line)[7], ';')[17], '=')| >= 2
    requires |Split(Split(Columns(line)[7], ';')[14], '=')| >= 2
    ensures var tr, tc := Split(Split(Columns(line)[7], ';')[17], '=')[1], Split(Split(Columns(line)[7], ';')[14], '=')[1];
      var p := ParseLine(line, qualCutoff, chrom, selection, parseInt, parseFloat);
      ((',' in tr || ',' in tc) ==> p == Success(None)) &&
      ((',' !in tr && ',' !in tc && parseFloat(tr) == Some(0.0)) ==> p == Success(None)) &&
      ((',' !in tr && ',' !in tc && parseFloat(tr).Some? && parseFloat(tc) == Some(0.0)) ==> p == Success(None))
  {
  }

  /** On success, the records are the calls of the lines, and every call
      of a line is among them; there are no more records than lines. */
  lemma {:induction false} KeptMembers(step: string -> Result<Option<Record>, VcfError>, lines: seq<string>)
    ensures var r := Kept(step, lines);
      r.Success? ==>
        |r.value| <= |lines| &&
        (forall i :: 0 <= i < |r.value| ==>
          exists j :: 0 <= j < |lines| && step(lines[j]) == Success(Some(r.value[i]))) &&
        (forall j :: 0 <= j < |lines| && step(lines[j]).Success? && step(lines[j]).value.Some? ==>
          step(lines[j]).value.value in r.value)
  {
    if lines != [] {
      var n := |lines| - 1;
      var init := lines[..n];
      KeptMembers(step, init);
      var r := Kept(step, lines);
      if r.Success? {
        var before := Kept(step, init).value;
        assert forall j :: 0 <= j < n ==> init[j] == lines[j];
        forall i | 0 <= i < |r.value|
          ensures exists j :: 0 <= j < |lines| && step(lines[j]) == Success(Some(r.value[i]))
        {
          if i < |before| {
            assert r.value[i] == before[i];
            var j :| 0 <= j < n && step(init[j]) == Success(Some(before[i]));
            assert step(lines[j]) == Success(Some(r.value[i]));
          } else {
            assert step(lines[n]) == Success(Some(r.value[i]));
          }
        }
      }
    }
  }

  /** Every record the parser keeps comes from a selected line that carries
      it and passed the filters (quality, commas, zero counts), and every
      such line gives its record. */
  lemma KeptRecordsPassFilters(lines: seq<string>, qualCutoff: real, chrom: string,
      selection: Selection, parseInt: string -> Option<int>, parseFloat: string -> Option<real>)
    ensures var r := KeptRecords(lines, qualCutoff, chrom, selection, parseInt, parseFloat);
      r.Success? ==>
        |r.value| <= |lines| &&
        (forall i :: 0 <= i < |r.value| ==>
          PassedFilters(r.value[i], qualCutoff) &&
          exists j :: 0 <= j < |lines| && Selected(lines[j], chrom, selection) &&
            Carries(Columns(lines[j]), parseInt, parseFloat, r.value[i])) &&
        (forall j, rec ::
          (0 <= j < |lines| && Selected(lines[j], chrom, selection) &&
           Carries(Columns(lines[j]), parseInt, parseFloat, rec) && PassedFilters(rec, qualCutoff)) ==>
            rec in r.value)
  {
    var step := LineParser(qualCutoff, chrom, selection, parseInt, parseFloat);
    var r := Kept(step, lines);
    KeptMembers(step, lines);
    if r.Success? {
      forall i | 0 <= i < |r.value|
        ensures PassedFilters(r.value[i], qualCutoff) &&
          exists j :: 0 <= j < |lines| && Selected(lines[j], chrom, selection) &&
            Carries(Columns(lines[j]), parseInt, parseFloat, r.value[i])
      {
        var j :| 0 <= j < |lines| && step(lines[j]) == Success(Some(r.value[i]));
        ParseLineKeeps(lines[j], qualCutoff, chrom, selection, parseInt, parseFloat, r.value[i]);
      }
      forall j, rec | 0 <= j < |lines| && Selected(lines[j], chrom, selection) &&
          Carries(Columns(lines[j]), parseInt, parseFloat, rec) && PassedFilters(rec, qualCutoff)
        ensures rec in r.value
      {
        ParseLineKeeps(lines[j], qualCutoff, chrom, selection, parseInt, parseFloat, rec);
        assert step(lines[j]) == Success(Some(rec));
      }
    }
  }

  /** With positive counts the read balance is positive. */
  lemma PositiveReadBalance(rec: Record)
    requires rec.tr > 0.0 && rec.tc > 0.0 && rec.readBalance == rec.tr / rec.tc
    ensures rec.readBalance > 0.0
  {
  }

  /** Every read balance the parser stores is positive when the counts are
      not negative: the zero counts were skipped. */
  lemma KeptRecordsPositiveBalance(lines: seq<string>, qualCutoff: real, chrom: string,
      selection: Selection, parseInt: string -> Option<int>, parseFloat: string -> Option<real>)
    ensures var r := KeptRecords(lines, qualCutoff, chrom, selection, parseInt, parseFloat);
      r.Success? ==> forall i :: 0 <= i < |r.value| && r.value[i].tr >= 0.0 && r.value[i].tc >= 0.0 ==>
        r.value[i].readBalance > 0.0
  {
    var r := KeptRecords(lines, qualCutoff, chrom, selection, parseInt, parseFloat);
    KeptRecordsPassFilters(lines, qualCutoff, chrom, selection, parseInt, parseFloat);
    if r.Success? {
      forall i | 0 <= i < |r.value| && r.value[i].tr >= 0.0 && r.value[i].tc >= 0.0
        ensures r.value[i].readBalance > 0.0
      {
        PositiveReadBalance(r.value[i]);
      }
    }
  }

  /** As written, a chromosome name that is not a single character never
      equals a line's first character: every line of a file (none is
      empty) is skipped and the three lists come back empty. */
  lemma {:induction false} LongChromosomeNameKeepsNothing(lines: seq<string>, qualCutoff: real, chrom: string,
      parseInt: string -> Option<int>, parseFloat: string -> Option<real>)
    requires |chrom| != 1
    requires forall i :: 0 <= i < |lines| ==> lines[i] != []
    ensures KeptRecords(lines, qualCutoff, chrom, FirstCharacter, parseInt, parseFloat) == Success([])
  {
    if lines != [] {
      var n := |lines| - 1;
      LongChromosomeNameKeepsNothing(lines[..n], qualCutoff, chrom, parseInt, parseFloat);
    }
  }

  /** The selection evidently meant keeps a record only from lines of the
      chosen chromosome, and any line of that chromosome that passes the
      filters, which the written selection drops when the name is longer
      than one character (for example "chrX"). */
  lemma FirstColumnSelection(line: string, qualCutoff: real, chrom: string,
                             parseInt: string -> Option<int>, parseFloat: string -> Option<real>)
    ensures var p := ParseLine(line, qualCutoff, chrom, FirstColumn, parseInt, parseFloat);
      p.Success? && p.value.Some? ==> Columns(line)[0] == chrom
    ensures var q := ParseColumns(Columns(line), qualCutoff, parseInt, parseFloat);
      Columns(line)[0] == chrom && |chrom| != 1 && line != [] && q.Success? && q.value.Some? ==>
        KeptRecords([line], qualCutoff, chrom, FirstCharacter, parseInt, parseFloat) == Success([]) &&
        KeptRecords([line], qualCutoff, chrom, FirstColumn, parseInt, parseFloat) == Success([q.value.value])
  {
    KeptSingleLine(LineParser(qualCutoff, chrom, FirstCharacter, parseInt, parseFloat), line);
    KeptSingleLine(LineParser(qualCutoff, chrom, FirstColumn, parseInt, parseFloat), line);
  }

  /** `','.join(map(str, chroms))`, the `--regions` argument. */
  function PlatypusRegions(chroms: seq<string>): string
  {
    Join(chroms, ',')
  }

  /** Platypus splitting the regions string at commas recovers the
      chromosome list, when no name holds a comma. */
  lemma PlatypusRegionsRoundTrip(chroms: seq<string>)
    requires |chroms| >= 1
    requires forall i :: 0 <= i < |chroms| ==> ',' !in chroms[i]
    ensures Split(PlatypusRegions(chroms), ',') == chroms
  {
    SplitJoin(chroms, ',');
  }
}
