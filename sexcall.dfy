/** The permutation-test stage and the call on the presence of the Y
    chromosome: which chromosomes count as autosomes, which comparisons are
    run, how the X-versus-Y comparison becomes a call, and how the
    `--y_present` and `--y_absent` flags override it.  The statistics
    themselves are a parameter. */
module SexCall {
  import opened Results
  import opened Seqs

  /** Fields 3 and 4 of the tuple returned by the permutation test on two
      chromosomes' depths. */
  datatype PermSummary = PermSummary(low: real, high: real)

  /** The X-versus-Y test calls Y present when 1.0 lies strictly between
      fields 3 and 4. */
  predicate StatisticalCall(res: PermSummary)
  {
    res.low < 1.0 < res.high
  }

  /** The X list, followed by the Y list when one is given. */
  function SexChromosomes(x: seq<string>, y: Option<seq<string>>): seq<string>
  {
    if y.Some? then x + y.value else x
  }

  /** `[x for x in args.chromosomes if x not in sex_chromosomes]`. */
  function Autosomes(chromosomes: seq<string>, x: seq<string>, y: Option<seq<string>>): (r: seq<string>)
    ensures Subsequence(r, chromosomes)
    ensures forall i :: 0 <= i < |r| ==> r[i] !in x && (y.Some? ==> r[i] !in y.value)
    ensures forall i :: 0 <= i < |chromosomes| && chromosomes[i] !in SexChromosomes(x, y) ==>
      chromosomes[i] in r
  {
    var sex := SexChromosomes(x, y);
    Filter(c => c !in sex, chromosomes)
  }

  /** A repeated autosome stays repeated: each chromosome outside the sex
      lists occurs among the autosomes as often as in `chromosomes`, and a
      sex chromosome not at all. */
  lemma AutosomeCounts(chromosomes: seq<string>, x: seq<string>, y: Option<seq<string>>)
    ensures forall c ::
      multiset(Autosomes(chromosomes, x, y))[c] == (if c in SexChromosomes(x, y) then 0 else multiset(chromosomes)[c])
  {
    var sex := SexChromosomes(x, y);
    FilterCounts(c => c !in sex, chromosomes);
  }

  /** No autosome is compared against itself: the reference chromosomes of
      the comparisons, `x[0]` and `y[0]`, are never autosomes. */
  lemma ReferencesAreNotAutosomes(chromosomes: seq<string>, x: seq<string>, y: Option<seq<string>>)
    requires |x| >= 1 && (y.Some? ==> |y.value| >= 1)
    ensures x[0] !in Autosomes(chromosomes, x, y)
    ensures y.Some? ==> y.value[0] !in Autosomes(chromosomes, x, y)
  {
  }

  /** Leaving out the Y list too never adds an autosome. */
  lemma AutosomesWithoutY(chromosomes: seq<string>, x: seq<string>, y: seq<string>)
    ensures forall i :: 0 <= i < |Autosomes(chromosomes, x, Some(y))| ==>
      Autosomes(chromosomes, x, Some(y))[i] in Autosomes(chromosomes, x, None)
  {
    var withY := Autosomes(chromosomes, x, Some(y));
    forall i | 0 <= i < |withY|
      ensures withY[i] in Autosomes(chromosomes, x, None)
    {
      SubsequenceMember(withY, chromosomes, i);
      var k :| 0 <= k < |chromosomes| && chromosomes[k] == withY[i];
    }
  }

  /** The permutation-test block: one test of every autosome against
      `x[0]`, and, when a Y list is given, one against `y[0]` and the call
      from the X-versus-Y test.  Without a Y list `y_present_perm` is never
      assigned (`None`).  `test(a, b)` stands for
      `ploidy.permutation_test_chromosomes` comparing chromosome `a` with
      `b`; the X and Y lists are non-empty because the command line
      requires at least one name for each. */
  method PermutationTests(chromosomes: seq<string>, x: seq<string>, y: Option<seq<string>>,
                          test: (string, string) -> PermSummary)
    returns (permResX: seq<PermSummary>, permResY: seq<PermSummary>, yPresentPerm: Option<bool>)
    requires |x| >= 1 && (y.Some? ==> |y.value| >= 1)
    ensures var autosomes := Autosomes(chromosomes, x, y);
      |permResX| == |autosomes| &&
      forall i :: 0 <= i < |autosomes| ==> permResX[i] == test(autosomes[i], x[0])
    ensures y.Some? ==> var autosomes := Autosomes(chromosomes, x, y);
      |permResY| == |autosomes| &&
      (forall i :: 0 <= i < |autosomes| ==> permResY[i] == test(autosomes[i], y.value[0])) &&
      yPresentPerm == Some(StatisticalCall(test(x[0], y.value[0])))
    ensures y.None? ==> permResY == [] && yPresentPerm == None
  {
    var sexChromosomes := SexChromosomes(x, y);
    var autosomes := Autosomes(chromosomes, x, y);
    permResX := [];
    permResY := [];
    yPresentPerm := None;
    var i := 0;
    while i < |autosomes|
      invariant 0 <= i <= |autosomes|
      invariant |permResX| == i && forall k :: 0 <= k < i ==> permResX[k] == test(autosomes[k], x[0])
      invariant y.Some? ==>
        |permResY| == i && forall k :: 0 <= k < i ==> permResY[k] == test(autosomes[k], y.value[0])
      invariant y.None? ==> permResY == []
    {
      var c := autosomes[i];
      permResX := permResX + [test(c, x[0])];
      if y.Some? {
        permResY := permResY + [test(c, y.value[0])];
      }
      i := i + 1;
    }
    if y.Some? {
      var sexPermRes := test(x[0], y.value[0]);
      if sexPermRes.low < 1.0 < sexPermRes.high {
        yPresentPerm := Some(true);
      } else {
        yPresentPerm := Some(false);
      }
    }
  }

  datatype DecisionError = YPresencePermUnbound

  /** The `if args.y_present ... elif args.y_absent ... else` block:
      `permCall` is `y_present_perm`, `None` when it was never assigned
      (tests switched off, or no Y list), which is a `NameError`. */
  function DecideYPresence(yPresentFlag: bool, yAbsentFlag: bool, permCall: Option<bool>)
    : (r: Result<bool, DecisionError>)
    ensures yPresentFlag ==> r == Success(true)
    ensures !yPresentFlag && yAbsentFlag ==> r == Success(false)
    ensures !yPresentFlag && !yAbsentFlag ==>
      (r.Success? <==> permCall.Some?) && (r.Success? ==> r.value == permCall.value)
  {
    if yPresentFlag then Success(true)
    else if yAbsentFlag then Success(false)
    else if permCall.Some? then Success(permCall.value)
    else Failure(YPresencePermUnbound)
  }

  /** An override makes the statistics irrelevant: the call is the same
      whatever the tests found, and whether or not they ran. */
  lemma OverrideIgnoresStatistics(yPresentFlag: bool, yAbsentFlag: bool, a: Option<bool>, b: Option<bool>)
    requires yPresentFlag || yAbsentFlag
    ensures DecideYPresence(yPresentFlag, yAbsentFlag, a) == DecideYPresence(yPresentFlag, yAbsentFlag, b)
    ensures DecideYPresence(yPresentFlag, yAbsentFlag, a) == Success(yPresentFlag)
  {
  }
}
