/** Genomic interval lists as pybedtools handles them for `output_bed` and
    `merge_bed_files`: `BedTool(list).sort().merge()`.  Sorting orders records
    by chromosome name (as text), then start; merging sweeps the sorted list
    and coalesces a record into the running one when it lies on the same
    chromosome and starts at or before the running stop (overlapping and
    book-ended records are joined). */
module Intervals {
  import opened Results
  import opened Seqs

  /** One BED record: chromosome, 0-based start, exclusive stop. */
  datatype Interval = Interval(chrom: string, start: nat, stop: nat)

  datatype BedError =
    | MalformedInterval     // bedtools refuses a record whose start exceeds its stop
    | NothingToConcatenate  // pandas.concat of no data frames
    | NoBedFiles            // bed_files[0] of an empty argument list
    | UnboundResult         // `b` read before any assignment

  predicate WellFormed(iv: Interval)
  {
    iv.start <= iv.stop
  }

  predicate AllWellFormed(s: seq<Interval>)
  {
    forall i :: 0 <= i < |s| ==> WellFormed(s[i])
  }

  /** Position `p` of chromosome `c` lies in `iv` (half-open, as in BED). */
  predicate InInterval(iv: Interval, c: string, p: nat)
  {
    iv.chrom == c && iv.start <= p < iv.stop
  }

  predicate Covers(s: seq<Interval>, c: string, p: nat)
  {
    exists i :: 0 <= i < |s| && InInterval(s[i], c, p)
  }

  // ---------------------------------------------------------------------
  // Order of records

  /** Lexicographic order on chromosome names. */
  predicate StrLt(a: string, b: string)
    decreases |a|
  {
    b != [] && (a == [] || a[0] < b[0] || (a[0] == b[0] && StrLt(a[1..], b[1..])))
  }

  lemma {:induction false} StrLtIrreflexive(a: string)
    ensures !StrLt(a, a)
  {
    if a != [] {
      StrLtIrreflexive(a[1..]);
    }
  }

  lemma {:induction false} StrLtTransitive(a: string, b: string, c: string)
    requires StrLt(a, b) && StrLt(b, c)
    ensures StrLt(a, c)
    decreases |a|
  {
    if a != [] && a[0] == b[0] && b[0] == c[0] {
      StrLtTransitive(a[1..], b[1..], c[1..]);
    }
  }

  lemma {:induction false} StrLtTotal(a: string, b: string)
    ensures a == b || StrLt(a, b) || StrLt(b, a)
    decreases |a|
  {
    if a != [] && b != [] && a[0] == b[0] {
      StrLtTotal(a[1..], b[1..]);
      if a[1..] == b[1..] {
        assert a == [a[0]] + a[1..] && b == [b[0]] + b[1..];
      }
    }
  }

  lemma StrLtAsymmetric(a: string, b: string)
    requires StrLt(a, b)
    ensures !StrLt(b, a)
  {
    if StrLt(b, a) {
      StrLtTransitive(a, b, a);
      StrLtIrreflexive(a);
    }
  }

  /** The sort order: chromosome name, then start, then stop.  bedtools
      promises only (chromosome, start); the stop tie-break makes the order
      total, so that sorting is a function of the records. */
  predicate Le(a: Interval, b: Interval)
  {
    StrLt(a.chrom, b.chrom) ||
    (a.chrom == b.chrom && (a.start < b.start || (a.start == b.start && a.stop <= b.stop)))
  }

  lemma LeTotal(a: Interval, b: Interval)
    ensures Le(a, b) || Le(b, a)
  {
    StrLtTotal(a.chrom, b.chrom);
  }

  lemma LeTransitive(a: Interval, b: Interval, c: Interval)
    requires Le(a, b) && Le(b, c)
    ensures Le(a, c)
  {
    if StrLt(a.chrom, b.chrom) && StrLt(b.chrom, c.chrom) {
      StrLtTransitive(a.chrom, b.chrom, c.chrom);
    }
  }

  lemma LeAntisymmetric(a: Interval, b: Interval)
    requires Le(a, b) && Le(b, a)
    ensures a == b
  {
    if StrLt(a.chrom, b.chrom) {
      StrLtAsymmetric(a.chrom, b.chrom);
    } else if StrLt(b.chrom, a.chrom) {
      StrLtAsymmetric(b.chrom, a.chrom);
    }
  }

  predicate Sorted(s: seq<Interval>)
  {
    forall i, j :: 0 <= i < j < |s| ==> Le(s[i], s[j])
  }

  // ---------------------------------------------------------------------
  // sort()

  function Insert(x: Interval, s: seq<Interval>): seq<Interval>
  {
    if s == [] then [x]
    else if Le(x, s[0]) then [x] + s
    else [s[0]] + Insert(x, s[1..])
  }

  function Sort(s: seq<Interval>): seq<Interval>
  {
    if s == [] then [] else Insert(s[0], Sort(s[1..]))
  }

  lemma {:induction false} InsertPermutes(x: Interval, s: seq<Interval>)
    ensures multiset(Insert(x, s)) == multiset(s) + multiset{x}
  {
    if s != [] && !Le(x, s[0]) {
      InsertPermutes(x, s[1..]);
      assert s == [s[0]] + s[1..];
    }
  }

  /** A record no greater than every record of a sorted list heads it sorted. */
  lemma SortedCons(h: Interval, t: seq<Interval>)
    requires Sorted(t)
    requires forall k :: 0 <= k < |t| ==> Le(h, t[k])
    ensures Sorted([h] + t)
  {
    forall i, j | 0 <= i < j < |[h] + t|
      ensures Le(([h] + t)[i], ([h] + t)[j])
    {
      if i > 0 {
        assert ([h] + t)[i] == t[i - 1] && ([h] + t)[j] == t[j - 1];
      }
    }
  }

  lemma {:induction false} InsertSorted(x: Interval, s: seq<Interval>)
    requires Sorted(s)
    ensures Sorted(Insert(x, s))
  {
    if s == [] {
    } else if Le(x, s[0]) {
      forall j | 0 <= j < |s|
        ensures Le(x, s[j])
      {
        if j > 0 { LeTransitive(x, s[0], s[j]); }
      }
      SortedCons(x, s);
    } else {
      LeTotal(x, s[0]);
      var t := Insert(x, s[1..]);
      SortedTail(s);
      InsertSorted(x, s[1..]);
      InsertPermutes(x, s[1..]);
      forall k | 0 <= k < |t|
        ensures Le(s[0], t[k])
      {
        assert t[k] in multiset(t);
        if t[k] != x {
          assert t[k] in multiset(s[1..]);
          var j :| 0 <= j < |s[1..]| && s[1..][j] == t[k];
          assert Le(s[0], s[j + 1]);
        }
      }
      SortedCons(s[0], t);
    }
  }

  lemma InsertSortedPermutes(x: Interval, s: seq<Interval>)
    requires Sorted(s)
    ensures Sorted(Insert(x, s))
    ensures multiset(Insert(x, s)) == multiset(s) + multiset{x}
  {
    InsertSorted(x, s);
    InsertPermutes(x, s);
  }

  /** sort() returns the records in order, and exactly the records given. */
  lemma {:induction false} SortSortedPermutes(s: seq<Interval>)
    ensures Sorted(Sort(s))
    ensures multiset(Sort(s)) == multiset(s)
  {
    if s != [] {
      SortSortedPermutes(s[1..]);
      InsertSortedPermutes(s[0], Sort(s[1..]));
      assert s == [s[0]] + s[1..];
    }
  }

  lemma SortedTail(a: seq<Interval>)
    requires Sorted(a) && a != []
    ensures Sorted(a[1..])
  {
    forall i, j | 0 <= i < j < |a[1..]|
      ensures Le(a[1..][i], a[1..][j])
    {
      assert Le(a[i + 1], a[j + 1]);
    }
  }

  lemma SortedHeads(a: seq<Interval>, b: seq<Interval>)
    requires Sorted(a) && Sorted(b) && a != [] && b != []
    requires multiset(a) == multiset(b)
    ensures a[0] == b[0]
  {
    assert a[0] in multiset(b);
    var k :| 0 <= k < |b| && b[k] == a[0];
    assert b[0] in multiset(a);
    var m :| 0 <= m < |a| && a[m] == b[0];
    assert Le(b[0], a[0]) by {
      if k > 0 { assert Le(b[0], b[k]); }
    }
    assert Le(a[0], b[0]) by {
      if m > 0 { assert Le(a[0], a[m]); }
    }
    LeAntisymmetric(a[0], b[0]);
  }

  /** There is only one sorted arrangement of a collection of records. */
  lemma {:induction false} SortedUnique(a: seq<Interval>, b: seq<Interval>)
    requires Sorted(a) && Sorted(b)
    requires multiset(a) == multiset(b)
    ensures a == b
    decreases |a|
  {
    assert |a| == |multiset(a)| == |multiset(b)| == |b|;
    if a != [] {
      SortedHeads(a, b);
      SortedTail(a);
      SortedTail(b);
      assert a == [a[0]] + a[1..] && b == [b[0]] + b[1..];
      assert multiset(a[1..]) == multiset(a) - multiset{a[0]};
      assert multiset(b[1..]) == multiset(b) - multiset{b[0]};
      SortedUnique(a[1..], b[1..]);
    }
  }

  // ---------------------------------------------------------------------
  // merge()

  /** Sorted by (chromosome, start) only, as a sweep needs. */
  predicate StartLe(a: Interval, b: Interval)
  {
    StrLt(a.chrom, b.chrom) || (a.chrom == b.chrom && a.start <= b.start)
  }

  /** `a` comes wholly before `b` with a gap: on an earlier chromosome, or on
      the same one with `a` stopping strictly before `b` starts. */
  predicate Apart(a: Interval, b: Interval)
  {
    StrLt(a.chrom, b.chrom) || (a.chrom == b.chrom && a.stop < b.start)
  }

  /** The shape of a merged list: well-formed records, any two of which are
      apart (so none overlap or touch, and they are in order). */
  predicate Canonical(s: seq<Interval>)
  {
    AllWellFormed(s) && forall i, j :: 0 <= i < j < |s| ==> Apart(s[i], s[j])
  }

  lemma ApartTransitive(a: Interval, b: Interval, c: Interval)
    requires Apart(a, b) && Apart(b, c) && WellFormed(b)
    ensures Apart(a, c)
  {
    if StrLt(a.chrom, b.chrom) && StrLt(b.chrom, c.chrom) {
      StrLtTransitive(a.chrom, b.chrom, c.chrom);
    }
  }

  function Max(a: nat, b: nat): nat
  {
    if a < b then b else a
  }

  /** The sweep: `run` is the record being grown, `rest` what is left. */
  function MergeFrom(run: Interval, rest: seq<Interval>): seq<Interval>
    decreases |rest|
  {
    if rest == [] then [run]
    else if rest[0].chrom == run.chrom && rest[0].start <= run.stop then
      MergeFrom(Interval(run.chrom, run.start, Max(run.stop, rest[0].stop)), rest[1..])
    else [run] + MergeFrom(rest[0], rest[1..])
  }

  function Merge(s: seq<Interval>): seq<Interval>
  {
    if s == [] then [] else MergeFrom(s[0], s[1..])
  }

  /** `BedTool(s).sort().merge()` on well-formed records. */
  function SortMerge(s: seq<Interval>): seq<Interval>
  {
    Merge(Sort(s))
  }

  lemma {:induction false} MergeFromCanonical(run: Interval, rest: seq<Interval>)
    requires WellFormed(run) && AllWellFormed(rest) && Sorted(rest)
    requires forall i :: 0 <= i < |rest| ==> StartLe(run, rest[i])
    ensures var r := MergeFrom(run, rest);
      |r| >= 1 && r[0].chrom == run.chrom && r[0].start == run.start && Canonical(r)
    decreases |rest|
  {
    if rest == [] {
    } else if rest[0].chrom == run.chrom && rest[0].start <= run.stop {
      var run' := Interval(run.chrom, run.start, Max(run.stop, rest[0].stop));
      forall i | 0 <= i < |rest[1..]|
        ensures StartLe(run', rest[1..][i])
      {
        assert Le(rest[0], rest[i + 1]);
      }
      MergeFromCanonical(run', rest[1..]);
    } else {
      forall i | 0 <= i < |rest[1..]|
        ensures StartLe(rest[0], rest[1..][i])
      {
        assert Le(rest[0], rest[i + 1]);
      }
      MergeFromCanonical(rest[0], rest[1..]);
      var t := MergeFrom(rest[0], rest[1..]);
      assert StartLe(run, rest[0]);
      assert Apart(run, t[0]);
      forall j | 0 <= j < |t|
        ensures Apart(run, t[j])
      {
        if j > 0 { ApartTransitive(run, t[0], t[j]); }
      }
      var r := [run] + t;
      assert forall i, j :: 0 < i < j < |r| ==> r[i] == t[i - 1] && r[j] == t[j - 1];
    }
  }

  /** Merging a sorted list of well-formed records yields a merged list. */
  lemma MergeCanonical(s: seq<Interval>)
    requires AllWellFormed(s) && Sorted(s)
    ensures Canonical(Merge(s))
  {
    if s != [] {
      forall i | 0 <= i < |s[1..]|
        ensures StartLe(s[0], s[1..][i])
      {
        assert Le(s[0], s[i + 1]);
      }
      MergeFromCanonical(s[0], s[1..]);
    }
  }

  lemma SortKeepsWellFormed(s: seq<Interval>)
    requires AllWellFormed(s)
    ensures AllWellFormed(Sort(s)) && Sorted(Sort(s)) && multiset(Sort(s)) == multiset(s)
  {
    SortSortedPermutes(s);
    forall i | 0 <= i < |Sort(s)|
      ensures WellFormed(Sort(s)[i])
    {
      assert Sort(s)[i] in multiset(s);
    }
  }

  /** The result of sort().merge() is sorted by (chromosome, start), holds
      well-formed records, and no two records on one chromosome overlap or
      touch. */
  lemma SortMergeCanonical(s: seq<Interval>)
    requires AllWellFormed(s)
    ensures Canonical(SortMerge(s))
  {
    SortKeepsWellFormed(s);
    MergeCanonical(Sort(s));
  }

  // ---------------------------------------------------------------------
  // Coverage

  /** A list with one more record in front covers that record's positions
      and the rest's. */
  lemma CoversCons(x: Interval, s: seq<Interval>, c: string, p: nat)
    ensures Covers([x] + s, c, p) <==> InInterval(x, c, p) || Covers(s, c, p)
  {
    if Covers([x] + s, c, p) {
      var i :| 0 <= i < |[x] + s| && InInterval(([x] + s)[i], c, p);
      if i > 0 { assert InInterval(s[i - 1], c, p); }
    }
    if Covers(s, c, p) {
      var i :| 0 <= i < |s| && InInterval(s[i], c, p);
      assert InInterval(([x] + s)[i + 1], c, p);
    }
    if InInterval(x, c, p) {
      assert InInterval(([x] + s)[0], c, p);
    }
  }

  lemma {:induction false} MergeFromCovers(run: Interval, rest: seq<Interval>, c: string, p: nat)
    requires Sorted(rest) && AllWellFormed(rest)
    requires forall i :: 0 <= i < |rest| ==> StartLe(run, rest[i])
    ensures Covers(MergeFrom(run, rest), c, p) <==> InInterval(run, c, p) || Covers(rest, c, p)
    decreases |rest|
  {
    if rest == [] {
      if InInterval(run, c, p) {
        assert InInterval([run][0], c, p);
      }
    } else {
      forall i | 0 <= i < |rest[1..]|
        ensures StartLe(rest[0], rest[1..][i])
      {
        assert Le(rest[0], rest[i + 1]);
      }
      CoversCons(rest[0], rest[1..], c, p);
      assert [rest[0]] + rest[1..] == rest;
      if rest[0].chrom == run.chrom && rest[0].start <= run.stop {
        var run' := Interval(run.chrom, run.start, Max(run.stop, rest[0].stop));
        forall i | 0 <= i < |rest[1..]|
          ensures StartLe(run', rest[1..][i])
        {
          assert Le(rest[0], rest[i + 1]);
        }
        MergeFromCovers(run', rest[1..], c, p);
        StrLtIrreflexive(run.chrom);
        assert StartLe(run, rest[0]);
        assert InInterval(run', c, p) <==> InInterval(run, c, p) || InInterval(rest[0], c, p);
      } else {
        MergeFromCovers(rest[0], rest[1..], c, p);
        CoversCons(run, MergeFrom(rest[0], rest[1..]), c, p);
      }
    }
  }

  lemma CoversSameRecords(a: seq<Interval>, b: seq<Interval>, c: string, p: nat)
    requires multiset(a) == multiset(b)
    ensures Covers(a, c, p) <==> Covers(b, c, p)
  {
    if Covers(a, c, p) {
      var i :| 0 <= i < |a| && InInterval(a[i], c, p);
      assert a[i] in multiset(b);
      var j :| 0 <= j < |b| && b[j] == a[i];
    }
    if Covers(b, c, p) {
      var i :| 0 <= i < |b| && InInterval(b[i], c, p);
      assert b[i] in multiset(a);
      var j :| 0 <= j < |a| && a[j] == b[i];
    }
  }

  /** sort().merge() covers exactly the positions its input covers. */
  lemma SortMergeCovers(s: seq<Interval>, c: string, p: nat)
    requires AllWellFormed(s)
    ensures Covers(SortMerge(s), c, p) <==> Covers(s, c, p)
  {
    SortKeepsWellFormed(s);
    CoversSameRecords(Sort(s), s, c, p);
    var t := Sort(s);
    if t != [] {
      forall i | 0 <= i < |t[1..]|
        ensures StartLe(t[0], t[1..][i])
      {
        assert Le(t[0], t[i + 1]);
      }
      MergeFromCovers(t[0], t[1..], c, p);
      CoversCons(t[0], t[1..], c, p);
      assert [t[0]] + t[1..] == t;
    }
  }

  // ---------------------------------------------------------------------
  // Idempotence and order independence

  lemma CanonicalIsSorted(s: seq<Interval>)
    requires Canonical(s)
    ensures Sorted(s)
  {
    forall i, j | 0 <= i < j < |s|
      ensures Le(s[i], s[j])
    {
      assert Apart(s[i], s[j]);
    }
  }

  lemma {:induction false} MergeFromOfCanonical(run: Interval, rest: seq<Interval>)
    requires Canonical([run] + rest)
    ensures MergeFrom(run, rest) == [run] + rest
    decreases |rest|
  {
    var s := [run] + rest;
    if rest != [] {
      assert Apart(s[0], s[1]);
      StrLtIrreflexive(run.chrom);
      assert Canonical(rest) by {
        forall i, j | 0 <= i < j < |rest|
          ensures Apart(rest[i], rest[j])
        {
          assert Apart(s[i + 1], s[j + 1]);
        }
        forall i | 0 <= i < |rest|
          ensures WellFormed(rest[i])
        {
          assert WellFormed(s[i + 1]);
        }
      }
      MergeFromOfCanonical(rest[0], rest[1..]);
      assert [rest[0]] + rest[1..] == rest;
    }
  }

  /** Merging an already-merged list returns it unchanged. */
  lemma SortMergeIdempotent(s: seq<Interval>)
    requires AllWellFormed(s)
    ensures AllWellFormed(SortMerge(s))
    ensures SortMerge(SortMerge(s)) == SortMerge(s)
  {
    var m := SortMerge(s);
    SortMergeCanonical(s);
    CanonicalIsSorted(m);
    SortSortedPermutes(m);
    SortedUnique(Sort(m), m);
    if m != [] {
      assert [m[0]] + m[1..] == m;
      MergeFromOfCanonical(m[0], m[1..]);
    }
  }

  /** The result depends only on which records are given, not on their order. */
  lemma SortMergeSameRecords(a: seq<Interval>, b: seq<Interval>)
    requires multiset(a) == multiset(b)
    ensures SortMerge(a) == SortMerge(b)
  {
    SortSortedPermutes(a);
    SortSortedPermutes(b);
    SortedUnique(Sort(a), Sort(b));
  }

  lemma SortMergeConcatenationOrder(a: seq<Interval>, b: seq<Interval>)
    ensures SortMerge(a + b) == SortMerge(b + a)
  {
    assert multiset(a + b) == multiset(b + a);
    SortMergeSameRecords(a + b, b + a);
  }

  /** Touching records coalesce and a record after a gap stays apart:
      (chr1, 0, 10), (chr1, 10, 20), (chr1, 25, 30) merge into (chr1, 0, 20)
      and (chr1, 25, 30). */
  lemma TouchingRecordsCoalesce()
    ensures SortMerge([Interval("chr1", 0, 10), Interval("chr1", 10, 20), Interval("chr1", 25, 30)]) ==
      [Interval("chr1", 0, 20), Interval("chr1", 25, 30)]
  {
    var a, b, c := Interval("chr1", 0, 10), Interval("chr1", 10, 20), Interval("chr1", 25, 30);
    StrLtIrreflexive("chr1");
    assert [a, b, c][1..] == [b, c] && [b, c][1..] == [c] && [c][1..] == [];
    assert Sort([c]) == [c];
    assert Sort([b, c]) == [b, c];
    assert Sort([a, b, c]) == [a, b, c];
    assert [a, b, c][0] == a;
  }

  // ---------------------------------------------------------------------
  // The two callers

  /** Sort and merge as bedtools runs it: malformed records are refused. */
  function BedSortMerge(s: seq<Interval>): (r: Result<seq<Interval>, BedError>)
    ensures r.Success? <==> AllWellFormed(s)
    ensures r.Success? ==> Canonical(r.value) && r.value == SortMerge(s)
    ensures r.Failure? ==> r.error == MalformedInterval
  {
    if AllWellFormed(s) then
      SortMergeCanonical(s);
      Success(SortMerge(s))
    else Failure(MalformedInterval)
  }

  /** `output_bed(outBed, *regionDfs)`: the (chrom, start, stop) columns of
      all frames, concatenated, sorted and merged (the text written to the
      file is that list, one record per line). */
  function OutputBed(regionLists: seq<seq<Interval>>): (r: Result<seq<Interval>, BedError>)
    ensures regionLists == [] ==> r == Failure(NothingToConcatenate)
    ensures regionLists != [] ==>
      (r.Success? <==> forall i :: 0 <= i < |regionLists| ==> AllWellFormed(regionLists[i]))
    ensures r.Success? ==> Canonical(r.value)
  {
    if regionLists == [] then Failure(NothingToConcatenate)
    else
      AllWellFormedConcat(regionLists);
      BedSortMerge(Concat(regionLists))
  }

  lemma AllWellFormedConcat(ls: seq<seq<Interval>>)
    ensures AllWellFormed(Concat(ls)) <==> forall i :: 0 <= i < |ls| ==> AllWellFormed(ls[i])
  {
    var all := Concat(ls);
    if AllWellFormed(all) {
      forall i, k | 0 <= i < |ls| && 0 <= k < |ls[i]|
        ensures WellFormed(ls[i][k])
      {
        ConcatMember(ls, ls[i][k]);
      }
    }
    if forall i :: 0 <= i < |ls| ==> AllWellFormed(ls[i]) {
      forall k | 0 <= k < |all|
        ensures WellFormed(all[k])
      {
        ConcatMember(ls, all[k]);
      }
    }
  }

  lemma AllWellFormedSameRecords(a: seq<Interval>, b: seq<Interval>)
    requires multiset(a) == multiset(b)
    ensures AllWellFormed(a) <==> AllWellFormed(b)
  {
    if AllWellFormed(a) {
      forall k | 0 <= k < |b|
        ensures WellFormed(b[k])
      {
        assert b[k] in multiset(a);
      }
    }
    if AllWellFormed(b) {
      forall k | 0 <= k < |a|
        ensures WellFormed(a[k])
      {
        assert a[k] in multiset(b);
      }
    }
  }

  lemma CoversConcat(ls: seq<seq<Interval>>, c: string, p: nat)
    ensures Covers(Concat(ls), c, p) <==> exists i :: 0 <= i < |ls| && Covers(ls[i], c, p)
  {
    var all := Concat(ls);
    if Covers(all, c, p) {
      var k :| 0 <= k < |all| && InInterval(all[k], c, p);
      ConcatMember(ls, all[k]);
      var i :| 0 <= i < |ls| && all[k] in ls[i];
      var j :| 0 <= j < |ls[i]| && ls[i][j] == all[k];
      assert Covers(ls[i], c, p);
    }
    if exists i :: 0 <= i < |ls| && Covers(ls[i], c, p) {
      var i :| 0 <= i < |ls| && Covers(ls[i], c, p);
      var j :| 0 <= j < |ls[i]| && InInterval(ls[i][j], c, p);
      ConcatMember(ls, ls[i][j]);
      var k :| 0 <= k < |all| && all[k] == ls[i][j];
    }
  }

  /** The written intervals cover exactly the positions covered by some input
      frame. */
  lemma OutputBedCovers(regionLists: seq<seq<Interval>>, c: string, p: nat)
    requires OutputBed(regionLists).Success?
    ensures Covers(OutputBed(regionLists).value, c, p) <==>
      exists i :: 0 <= i < |regionLists| && Covers(regionLists[i], c, p)
  {
    AllWellFormedConcat(regionLists);
    SortMergeCovers(Concat(regionLists), c, p);
    CoversConcat(regionLists, c, p);
  }

  /** Passing the frames in another order writes the same intervals. */
  lemma OutputBedFrameOrder(xs: seq<seq<Interval>>, ys: seq<seq<Interval>>)
    requires multiset(xs) == multiset(ys)
    ensures OutputBed(xs) == OutputBed(ys)
  {
    assert |xs| == |multiset(xs)| == |ys|;
    ConcatMultiset(xs, ys);
    SortMergeSameRecords(Concat(xs), Concat(ys));
    AllWellFormedSameRecords(Concat(xs), Concat(ys));
  }

  /** `merge_bed_files(ouput_file, *bed_files)` up to the merged value `c`.
      As written, the loop rebinds `b = a.cat(i)` on every pass, so only the
      first and the last file reach the result; with a single file `b` is
      never bound.  pybedtools' `cat` sorts and merges its result by default,
      so `b` is itself a merged list. */
  method MergeBedFiles(bedFiles: seq<seq<Interval>>) returns (r: Result<seq<Interval>, BedError>)
    ensures |bedFiles| == 0 ==> r == Failure(NoBedFiles)
    ensures |bedFiles| == 1 ==> r == Failure(UnboundResult)
    ensures |bedFiles| >= 2 ==>
      (r.Success? <==> forall i :: 0 <= i < |bedFiles| ==> AllWellFormed(bedFiles[i]))
    ensures |bedFiles| >= 2 && r.Failure? ==> r.error == MalformedInterval
    ensures |bedFiles| >= 2 && r.Success? ==>
      r.value == SortMerge(bedFiles[0] + bedFiles[|bedFiles| - 1])
  {
    if |bedFiles| == 0 {
      return Failure(NoBedFiles);
    }
    var a := bedFiles[0];
    var b: Option<seq<Interval>> := None;
    var i := 1;
    while i < |bedFiles|
      invariant 1 <= i <= |bedFiles|
      invariant forall k :: 1 <= k < i ==> AllWellFormed(a + bedFiles[k])
      invariant i == 1 ==> b == None
      invariant i > 1 ==> b == Some(SortMerge(a + bedFiles[i - 1]))
    {
      var cat := BedSortMerge(a + bedFiles[i]);
      if cat.Failure? {
        r := Failure(cat.error);
        assert !AllWellFormed(bedFiles[0]) || !AllWellFormed(bedFiles[i]);
        return;
      }
      b := Some(cat.value);
      i := i + 1;
    }
    if b.None? {
      return Failure(UnboundResult);
    }
    var last := bedFiles[|bedFiles| - 1];
    SortMergeIdempotent(a + last);
    r := BedSortMerge(b.value);
    forall k | 0 <= k < |bedFiles|
      ensures AllWellFormed(bedFiles[k])
    {
      var n := if k == 0 then 1 else k;
      assert AllWellFormed(a + bedFiles[n]);
      assert forall j :: 0 <= j < |bedFiles[k]| ==>
        bedFiles[k][j] == (a + bedFiles[n])[if k == 0 then j else |a| + j];
    }
  }

  /** What `merge_bed_files` is documented to do: merge every given file. */
  method MergeAllBedFiles(bedFiles: seq<seq<Interval>>) returns (r: Result<seq<Interval>, BedError>)
    ensures |bedFiles| == 0 ==> r == Failure(NoBedFiles)
    ensures |bedFiles| >= 1 ==> r == OutputBed(bedFiles)
  {
    if |bedFiles| == 0 {
      return Failure(NoBedFiles);
    }
    var b := bedFiles[0];
    var i := 1;
    assert bedFiles[..1][..0] == [];
    while i < |bedFiles|
      invariant 1 <= i <= |bedFiles|
      invariant b == Concat(bedFiles[..i])
    {
      assert bedFiles[..i + 1][..i] == bedFiles[..i];
      b := b + bedFiles[i];
      i := i + 1;
    }
    assert bedFiles[..i] == bedFiles;
    r := BedSortMerge(b);
  }

  /** The as-written merge loses a middle file: a position only the middle
      file covers is missing from its result, while merging all files keeps
      it. */
  lemma MiddleBedFileDropped(bedFiles: seq<seq<Interval>>, c: string, p: nat)
    requires |bedFiles| >= 3
    requires forall i :: 0 <= i < |bedFiles| ==> AllWellFormed(bedFiles[i])
    requires Covers(bedFiles[1], c, p)
    requires !Covers(bedFiles[0], c, p) && !Covers(bedFiles[|bedFiles| - 1], c, p)
    ensures !Covers(SortMerge(bedFiles[0] + bedFiles[|bedFiles| - 1]), c, p)
    ensures OutputBed(bedFiles).Success? && Covers(OutputBed(bedFiles).value, c, p)
  {
    var first, last := bedFiles[0], bedFiles[|bedFiles| - 1];
    assert AllWellFormed(first + last);
    SortMergeCovers(first + last, c, p);
    OutputBedCovers(bedFiles, c, p);
  }
}
