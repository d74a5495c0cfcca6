# XYalign core, modelled in Dafny

XYalign infers sex-chromosome ploidy from sequencing alignments. It scans each chromosome in windows and keeps the windows whose depth and mapping quality look reliable. Both sets of windows are written as merged BED interval files. Permutation tests on depth then decide whether a Y chromosome is present, and the sex chromosomes are remapped with that call.

This project models the deterministic logic of `xyalign/xyalign.py` and of the older `src/xyalign.py`, one module per piece:

- `Regions`: `make_region_lists` splits the windows of a chromosome into passing and failing ones. Its caller loops over the chromosomes and writes the two BED files.
- `Intervals`: `output_bed` and `merge_bed_files`. Both concatenate interval lists and run pybedtools' `sort().merge()`.
- `SexCall`: which chromosomes count as autosomes, which permutation tests run, how the X-versus-Y test becomes a call, and how `--y_present`/`--y_absent` override it.
- `Arguments`: the exit checks of `parse_args`.
- `Remap`: the read-group loop that picks the `@RG` header tag for each BWA remapping.
- `ChromosomeBed`: the whole-chromosome BED lines written by `chromosome_bed`.
- `Plots`: the colour rule of the chromosome-wide plots.
- `Variants`: `parse_platypus_VCF`, and the `--regions` string of `platypus_caller` (both in `src/xyalign.py`).
- `Text`, `Seqs` and `Results`: helpers for Python's string methods (`split`, `join`, `strip`, whitespace `split()`, decimal numbers, `lower`), for order-keeping filters, partitions and concatenation, and `Option`/`Result`.

Code that works step by step is a `method`. The loops carry loop invariants: `merge_bed_files`, the per-chromosome loop, the permutation-test loop, the read-group loops, the flag search in `parse_args`, `chromosome_bed`'s loop and the VCF loop. `parse_args`' exit checks are a straight-line method. Each method is proved equal to a specification function, or states its result outright. The vectorised and comprehension code is made of functions and lemmas.

Two points of behaviour:

- A Y comparison and a Y call are made only when a Y list is given (xyalign/xyalign.py:263-309). From the command line a Y list is always given: `--y_chromosome` has `nargs="+"` and the default `["chrY"]` (xyalign/xyalign.py:649-653), and `-y None` gives `["None"]`. So the branch without a Y list, the model's `y == None`, is reached only by other callers.
- Ties in the sort are broken by stop; see "Left out".

## Model

| member | source | states |
|---|---|---|
| `Regions.MakeRegionLists` | xyalign/xyalign.py:955-966 | The two outputs interleave to the input: every window lands in exactly one of them, and each keeps the input order. Every window of the first has mapq >= cutoff and mean - t·√mean < depth < mean + t·√mean, both bounds strict. No window of the second does. |
| `Regions.RegionListsPartition` | xyalign/xyalign.py:965-966 | The two lists' lengths add up to the number of windows, and together they hold exactly the input windows, counted with repetition. |
| `Regions.ZeroCoverageAllFail` | xyalign/xyalign.py:955-964 | With every depth 0, both depth bounds are 0 and every window fails: the result is ([], windows). |
| `Regions.UniformCoverageAllPass` | xyalign/xyalign.py:955-964 | With every depth equal to d > 0, good mapq and a positive threshold, every window passes: the result is (windows, []). |
| `Regions.UniformBounds` | xyalign/xyalign.py:958-959 | With every depth equal to d > 0, depthMin < d < depthMax. |
| `Regions.IntervalsOf` | xyalign/xyalign.py:982 | One interval per window, in order, holding the window's chrom, start and stop. |
| `Regions.Classified` | xyalign/xyalign.py:230-237 | `pass_df` and `fail_df` have one entry per chromosome. |
| `Regions.AnalyzeChromosomes` | xyalign/xyalign.py:230-243 | The loop appends chromosome i's passing and failing windows as entry i of the two lists. The high and low BED results are `output_bed` of those lists. |
| `Regions.RegionListsCoverage` | xyalign/xyalign.py:961-966 | A position is covered by the passing or the failing windows iff some input window covers it. |
| `Regions.ClassifiedCoverage` | xyalign/xyalign.py:230-243 | The high and low BED files together cover exactly the positions covered by the scanned windows of all chromosomes. |
| `Seqs.Partition` | xyalign/xyalign.py:961-966 | The mask/complement split: the input is an interleaving of the two sides, the first side satisfies the test and the second does not. |
| `Seqs.PartitionAll` | xyalign/xyalign.py:965 | If every element passes, the split is (input, []). |
| `Seqs.PartitionNone` | xyalign/xyalign.py:966 | If no element passes, the split is ([], input). |
| `Seqs.InterleavingCounts` | xyalign/xyalign.py:965-966 | An interleaving's two sides have lengths and multisets adding up to the whole. |
| `Seqs.Filter` | xyalign/xyalign.py:265 | A list comprehension with a condition: the result is a subsequence of the input, each element satisfies the condition, and every input element that satisfies it is kept. |
| `Seqs.FilterCounts` | xyalign/xyalign.py:265 | A value that satisfies the condition occurs in the result as often as in the input; any other value does not occur. |
| `Seqs.ConcatMultiset` | xyalign/xyalign.py:981 | Concatenating the same lists in any order gives the same multiset of elements. |
| `Intervals.SortSortedPermutes` | xyalign/xyalign.py:983 | `sort()` returns the records sorted, and exactly the records given. |
| `Intervals.SortedUnique` | xyalign/xyalign.py:983 | Two sorted lists with the same records are equal, so the sorted order is determined by the records. |
| `Intervals.MergeCanonical` | xyalign/xyalign.py:983 | `merge()` of a sorted list of well-formed records is canonical: records in order, any two of them on one chromosome neither overlapping nor touching. |
| `Intervals.SortMergeCanonical` | xyalign/xyalign.py:983 | `sort().merge()` of well-formed records is canonical. |
| `Intervals.SortMergeCovers` | xyalign/xyalign.py:983 | `sort().merge()` covers exactly the positions its input covers. |
| `Intervals.SortMergeIdempotent` | xyalign/xyalign.py:983 | Sorting and merging an already merged list returns it unchanged. |
| `Intervals.SortMergeSameRecords` | xyalign/xyalign.py:981-983 | The merged result depends only on the multiset of input records. |
| `Intervals.SortMergeConcatenationOrder` | xyalign/xyalign.py:981-983 | merge(a ++ b) == merge(b ++ a). |
| `Intervals.TouchingRecordsCoalesce` | xyalign/xyalign.py:983 | (chr1,0,10), (chr1,10,20), (chr1,25,30) merge into (chr1,0,20), (chr1,25,30): book-ended records join and a gap separates. |
| `Intervals.BedSortMerge` | xyalign/xyalign.py:983 | bedtools accepts the list iff every record has start <= stop. The result is then canonical and equals the sort-and-merge of the records. |
| `Intervals.OutputBed` | xyalign/xyalign.py:971-986 | No frames is an error, as in `pd.concat`. Otherwise it succeeds iff every frame is well formed, and the written list is canonical. |
| `Intervals.OutputBedCovers` | xyalign/xyalign.py:981-983 | The written intervals cover a position iff some input frame covers it. |
| `Intervals.OutputBedFrameOrder` | xyalign/xyalign.py:981-983 | Passing the same frames in another order writes the same intervals. |
| `Intervals.MergeBedFiles` | xyalign/xyalign.py:933-936 | As written: no files fails at `bed_files[0]`, and one file leaves `b` unbound. With two or more files the result is sort-merge of the first and the last file only; any malformed file is an error. |
| `Intervals.MergeAllBedFiles` | xyalign/xyalign.py:921-938 | As documented: the merge of all the given files, which is `output_bed`'s merge of their concatenation. |
| `Intervals.MiddleBedFileDropped` | xyalign/xyalign.py:933-936 | With three or more files, a position covered only by the second file is missing from the as-written result, but present in the merge of all files. |
| `SexCall.Autosomes` | xyalign/xyalign.py:264-265 | The autosomes are the chromosomes in neither the X list nor (when given) the Y list, in their original order, and every such chromosome is one. |
| `SexCall.AutosomeCounts` | xyalign/xyalign.py:264-265 | A chromosome outside the sex lists occurs among the autosomes as often as in `chromosomes`, so a repeated autosome stays repeated; a sex chromosome does not occur. |
| `SexCall.ReferencesAreNotAutosomes` | xyalign/xyalign.py:268-278 | `x[0]` and `y[0]`, the chromosomes every autosome is compared with, are never autosomes. |
| `SexCall.AutosomesWithoutY` | xyalign/xyalign.py:293-294 | The autosome list built without a Y list contains every autosome of the list built with one. |
| `SexCall.PermutationTests` | xyalign/xyalign.py:260-301 | One test per autosome against `x[0]`, in order. When a Y list is given, one per autosome against `y[0]`, and `y_present_perm` is true iff field 3 < 1.0 < field 4 of the X-versus-Y test. Without a Y list nothing is tested against Y and the call stays unbound. |
| `SexCall.DecideYPresence` | xyalign/xyalign.py:318-327 | `--y_present` gives true and, failing that, `--y_absent` gives false. Otherwise the statistical call is used, and a call never assigned is an error. |
| `SexCall.OverrideIgnoresStatistics` | xyalign/xyalign.py:318-325 | With an override, the result is the override's value whatever the statistics are. |
| `Arguments.BwaArgsAreWords` | xyalign/xyalign.py:860 | Stripping each token of `bwa_flags.split()` changes nothing: the tokens are the whitespace-separated words. |
| `Arguments.FindListed` | xyalign/xyalign.py:862 | The loop finds a flag iff some listed flag is among the tokens. |
| `Arguments.ValidateArgs` | xyalign/xyalign.py:816-872 | The checks of `parse_args` in their order, as written: the result equals `Validation`. |
| `Arguments.ValidationAccepts` | xyalign/xyalign.py:829-872 | As written, a command line is accepted iff all of these hold: not both overrides, no `--no_perm_test`, a known Platypus mode, at least two chromosomes, no flag of {-rm, rm, -rf, rf, -RM, RM, -RF, RF} and no flag of {-R, -t}. No warning is ever given. |
| `Arguments.ValidationIntendedAccepts` | xyalign/xyalign.py:803-857 | As the help text intends, `--no_perm_test` is accepted only with an override, and a single chromosome only with `--no_perm_test`. The single-chromosome warning is given iff one chromosome is listed. |
| `Arguments.OverrideWithoutTestsRejected` | xyalign/xyalign.py:829-833 | `--no_perm_test --y_present` on an otherwise valid command line exits as written, but passes the intended checks. |
| `Arguments.IntendedValidationDecides` | xyalign/xyalign.py:318-327 | After the intended checks pass, with `y_present_perm` bound exactly when the tests ran with a Y list, the Y decision succeeds iff there is an override or a Y list. Its value is then the override's, or the X-versus-Y call. |
| `Remap.LookUpHeader` | xyalign/xyalign.py:391-395 | The inner loop stops at the first `ID` token. The tag becomes the tab-joined header line iff that token's ID is the read group's; otherwise the previous tag stays. |
| `Remap.ReadGroupJobs` | xyalign/xyalign.py:385-402 | The nested loops queue exactly `Jobs(groups, headers, None)`, including both ways they raise. |
| `Remap.JobsFollowLines` | xyalign/xyalign.py:386-389 | A successful run queues one job per read-group line, in order, with the line's first token as ID and the rest as FASTQ files. A blank line makes the run fail. |
| `Remap.TagForNoMatch` | xyalign/xyalign.py:390-395 | Without a matching header line, the tag of the previous read group is reused. |
| `Remap.TagForLastMatch` | xyalign/xyalign.py:390-395 | With matching header lines, the tag is the last of them joined by tabs. |
| `Remap.TagSplitsBack` | xyalign/xyalign.py:394 | The tag split at tabs gives back the header tokens, whose ID is the read group's. |
| `Remap.BlankLinesSkipped` | xyalign/xyalign.py:386-387 | The intended loop, which skips blank lines, never fails on one. |
| `Remap.BlankLineAborts` | xyalign/xyalign.py:381-388 | A blank line followed by a valid read group fails as written (`i[0]` of `[]`), but succeeds in the intended loop. |
| `ChromosomeBed.WriteChromosomeBed` | xyalign/xyalign.py:909-918 | It succeeds iff every chromosome's length is found. Otherwise the error names the first chromosome without one. On success the file holds one line `name\t0\tlength\n` per chromosome, in order. |
| `ChromosomeBed.BedLineFields` | xyalign/xyalign.py:914 | One written line, read back as a BED record, is (name, 0, length). |
| `ChromosomeBed.BedTextReadsBack` | xyalign/xyalign.py:911-914 | The whole file reads back as the whole-chromosome intervals, one per listed chromosome, in order. |
| `ChromosomeBed.ChromosomeBedAsWritten` | xyalign/xyalign.py:909-918 | As written (the lookup calls an undefined `get_length`), the loop exits on the first chromosome of every non-empty list, naming it. |
| `Plots.PlotColour` | xyalign/xyalign.py:1009-1014 | The colour is green iff the name has x or X. It is blue iff it has no x/X but has y/Y, and red iff it has none of them. |
| `Plots.UsualChromosomeColours` | xyalign/xyalign.py:1009-1014 | chrX is green, chrY blue, chr19 red. |
| `Text.WordsProperties` | xyalign/xyalign.py:860 | `split()` gives non-empty tokens without whitespace, whose concatenation is the non-space characters of the input. |
| `Text.WordsAreMaximalRuns` | xyalign/xyalign.py:860 | `split()` of whitespace gaps and words, with a non-empty gap between any two words, gives back exactly those words: the tokens are the maximal non-space runs. |
| `Text.JoinSplit` | src/xyalign.py:116 | Joining the pieces of `split(sep)` with `sep` gives back the string. |
| `Text.SplitJoin` | src/xyalign.py:99 | Splitting `sep.join(xs)` at `sep` gives back `xs`, when no piece holds `sep`. |
| `Text.ParseNatToString` | xyalign/xyalign.py:914 | The decimal text of a length parses back to the length. |
| `Text.LowerContains` | xyalign/xyalign.py:1009 | A lower-case letter occurs in `s.lower()` iff it or its upper-case form occurs in `s`. |
| `Variants.ParseLineKeeps` | src/xyalign.py:114-127 | A line gives a record iff it is selected and passes every filter. POS comes from column 2 and QUAL from column 6. TR and TC are the values after `=` of the 18th and the 15th `;` field of column 8, neither holding a comma. QUAL must be >= the cutoff, TR and TC must be non-zero, and the read balance is TR/TC. |
| `Variants.ParseLineSkipsOtherChromosome` | src/xyalign.py:114-115 | A non-empty line that is not selected is skipped without error. |
| `Variants.ParseLineSkipsLowQuality` | src/xyalign.py:117-120 | A selected line whose POS and QUAL parse, with QUAL below the cutoff, is skipped before its INFO column is read. |
| `Variants.ParseLineSkipsCounts` | src/xyalign.py:121-126 | Once the 18th and 15th INFO fields have values, a comma in TR or TC skips the line, and so does a zero TR, or a parsed TR with a zero TC. |
| `Variants.KeptMembers` | src/xyalign.py:113-132 | On success, no more records than lines. Every record is the call of some line, and the call of every line that gives one is among the records. |
| `Variants.ParsePlatypusVcf` | src/xyalign.py:107-134 | The loop returns the three lists of the records kept from the lines, in line order, or the error of the first line that raises. |
| `Variants.CallsOf` | src/xyalign.py:130-134 | The three lists have one entry per kept record, aligned by index: position, quality and read balance. |
| `Variants.KeptAppend` | src/xyalign.py:113-134 | Parsing a file in two parts: the first part's records come first, and the first error in line order wins. |
| `Variants.KeptFailurePersists` | src/xyalign.py:113-117 | Once a line raises, the whole parse fails with that error. |
| `Variants.KeptRecordsPassFilters` | src/xyalign.py:113-132 | On success, at most one record per line. Every record passed the filters, and comes from a selected line whose columns and INFO fields 18 and 15 carry it. Every selected line carrying a record that passes the filters gives that record. |
| `Variants.PositiveReadBalance` | src/xyalign.py:127 | With positive TR and TC, the read balance is positive. |
| `Variants.KeptRecordsPositiveBalance` | src/xyalign.py:125-131 | Every read balance the parser stores is positive when its TR and TC are not negative, because zero counts are skipped. |
| `Variants.LongChromosomeNameKeepsNothing` | src/xyalign.py:114-115 | For a chromosome name that is not one character, every non-empty line is skipped and all three lists are empty. |
| `Variants.FirstColumnSelection` | src/xyalign.py:114-116 | With CHROM-column selection, a record is kept only from lines of the chosen chromosome. A passing line of a multi-character chromosome, dropped as written, is kept. |
| `Variants.PlatypusRegionsRoundTrip` | src/xyalign.py:99 | Platypus, splitting the `--regions` string at commas, recovers the chromosome list when no name holds a comma. |

## Left out

- The window scanner (`bam.traverse_bam_fetch`) and the statistics (`ploidy.permutation_test_chromosomes`) are not part of this model. Their outputs are inputs: the window lists, and the `test` parameter of `SexCall.PermutationTests`.
- SexCall.PermutationTests: `ploidy` is never imported in xyalign/xyalign.py (its imports are lines 12-33), so as written every `ploidy.permutation_test_chromosomes` call (:269, :274, :279, :297) raises `NameError`. The first of them is reached whenever the tests run, and `y_present_perm` is never bound. The model takes `test` as if the module were imported.
- Every subprocess stage is left out: Platypus calling, reference masking, FASTQ extraction, BWA/samtools/sambamba mapping and merging. The BWA call appears only as the queued `MappingJob`. These are foreign processes.
- Plotting beyond the colour rule, logging, timing, printing, directory creation and the writing of files are left out; they are I/O. `output_bed` is modelled up to the merged list it writes, and `merge_bed_files` up to the merged value `c`.
- Regions.MakeRegionLists: the square root of the mean is the parameter `sqrtMean`, and real arithmetic stands for pandas floats (NaN and rounding are not modelled). The threshold lemmas assume `IsSqrt`: non-negative, squaring to the mean, zero only for a zero mean.
- `depth_sd` (xyalign/xyalign.py:956) is computed and never used, so it is not modelled.
- Intervals.SortSortedPermutes: bedtools sorts by (chromosome, start) only. The model also breaks ties by stop, which makes the order total. The merged result is the same for any tie order, but the intermediate sorted list is that refinement. Chromosome names compare as text.
- pybedtools' `cat` is modelled as sort-and-merge of the concatenation, its default post-merge.
- `int()` and `float()` in the VCF parser are parameters returning `None` where Python raises; the parsing of numeric text is not modelled. The file is given as its list of lines.
- Intervals.MergeBedFiles: as written, every call that reaches `c.saveas(output_file)` raises `NameError`. The line is xyalign/xyalign.py:937, and the parameter is spelled `ouput_file`. So with two or more well-formed files the function never returns. The value modelled is `c`, what the function would save and return if that name were fixed.
- Variants.PlatypusRegions: takes a list of names. In src/xyalign.py, `--chromosomes` has no `nargs` (src/xyalign.py:47), so a value given on the command line arrives as one `str`. `','.join(map(str, chroms))` then joins its characters with commas; that case is not modelled.
- Variants.ParsePlatypusVcf: the source file does not parse as Python (src/xyalign.py:15 and :49), and its indentation mixes tabs and spaces. The model follows the evident loop structure, with the `return` after the loop.
- `[line[0]] != chrom` models Python comparing a one-character string with `chrom`.
- `-y None`-style command-line values and argparse's own parsing are left out; the checks start from the parsed options. Argparse's refusal of both overrides is the first check.
- Arguments.BwaArgs: `str.strip()` and `split()` are modelled for the ASCII whitespace Python recognises: space, tab, newline, vertical tab, form feed, carriage return, and the four information separators (characters 28-31). Non-ASCII whitespace is not modelled, and `lower()` covers ASCII letters only.
- Remap: the lines are given already split into tokens, as `line.strip()` then `split()` produce them; file reading is not modelled.
- The `--bam`/`--cram` choice, and `chromosome_bed`'s caller (xyalign/xyalign.py:456, which passes two arguments to a three-parameter function), are outside the core and not modelled.
- The colour rule of `plot_read_balance` (src/xyalign.py:138-143) is the same rule as `Plots.PlotColour`.

## Findings

| source | as written | input that shows it | evidently intended | confidence | as-written member | corrected member |
|---|---|---|---|---|---|---|
| xyalign/xyalign.py:933-936 | `b = a.cat(i)` rebinds `b` on every pass, so only the first and the last file are combined; with one file `b` is never bound | three files where only the second covers a position; or a single file | merge every given file | not executed | `Intervals.MiddleBedFileDropped` | `Intervals.MergeAllBedFiles` |
| src/xyalign.py:114 | `line[0] != chrom` compares the line's first character with the chromosome name | chrom = "chrX" with any file: every line is skipped | compare the CHROM column with the name | not executed | `Variants.LongChromosomeNameKeepsNothing` | `Variants.FirstColumnSelection` |
| xyalign/xyalign.py:829-833 | `sys.exit(1)` sits outside the inner `if`, so `--no_perm_test` always exits | `--no_perm_test --y_present` with two chromosomes | exit only when neither override is given | not executed | `Arguments.OverrideWithoutTestsRejected` | `Arguments.ValidationIntendedAccepts` |
| xyalign/xyalign.py:381-388 | the guard `i != [""]` never matches, because `"".split()` is `[]`; a blank line reaches `i[0]` and raises | read-group lines `["", "rg1 r1.fq"]` with header `@RG ID:rg1` | skip blank lines | not executed | `Remap.BlankLineAborts` | `Remap.BlankLinesSkipped` |
| xyalign/xyalign.py:913 | the bare name `get_length` is neither defined nor imported in this module, so every lookup raises and the bare `except` exits | any non-empty chromosome list | call `bam.get_length`, as the other call sites do (:240, :581) | not executed | `ChromosomeBed.ChromosomeBedAsWritten` | `ChromosomeBed.BedTextReadsBack` |
