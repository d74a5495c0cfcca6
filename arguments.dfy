/** The checks `parse_args` makes after argparse has read the command line,
    in the order they run, each ending the program with `sys.exit(1)`;
    argparse itself refuses `--y_present` together with `--y_absent`. */
module Arguments {
  import opened Results
  import opened Text
  import opened SexCall

  /** The parsed options the checks look at. */
  datatype Args = Args(
    chromosomes: seq<string>,
    noPermTest: bool,
    yPresent: bool,
    yAbsent: bool,
    platypusCalling: string,
    bwaFlags: string)

  datatype ExitReason =
    | ConflictingOverrides  // argparse: both members of the mutually exclusive group
    | PermTestSwitchedOff   // --no_perm_test, as written: with or without an override
    | MissingOverride       // --no_perm_test without --y_present or --y_absent
    // The next two are unreachable after parsing: argparse already refuses a
    // Platypus mode outside `choices` (xyalign/xyalign.py:700-701) and an
    // empty `--chromosomes` (`nargs="+"`, :640).  They are kept because
    // `parse_args` checks them.
    | BadPlatypusCalling
    | NoChromosomes
    | SingleChromosome
    | ShellFlag             // rm or rf among the BWA flags
    | ReservedFlag          // -R or -t among the BWA flags

  /** The only message after which the program goes on. */
  datatype Warning = SingleChromosomeWarning

  const PlatypusModes: seq<string> := ["both", "none", "before", "after"]
  const RedList: seq<string> := ["-rm", "rm", "-rf", "rf", "-RM", "RM", "-RF", "RF"]
  const YellowList: seq<string> := ["-R", "-t"]

  /** The characters `str.strip()` removes. */
  const Whitespace: set<char> := set n: int | 0 <= n <= 32 && IsSpace(n as char) :: n as char

  /** `[str(x).strip() for x in args.bwa_flags.split()]`. */
  function BwaArgs(bwaFlags: string): (r: seq<string>)
    ensures |r| == |Words(bwaFlags)|
  {
    var ws := Words(bwaFlags);
    seq(|ws|, i requires 0 <= i < |ws| => Strip(ws[i], Whitespace))
  }

  /** The strip is a no-op: the tokens of `split()` hold no whitespace. */
  lemma BwaArgsAreWords(bwaFlags: string)
    ensures BwaArgs(bwaFlags) == Words(bwaFlags)
  {
    var ws := Words(bwaFlags);
    WordsProperties(bwaFlags);
    forall i | 0 <= i < |ws|
      ensures Strip(ws[i], Whitespace) == ws[i]
    {
      forall k | 0 <= k < |ws[i]|
        ensures ws[i][k] !in Whitespace
      {
        assert !IsSpace(ws[i][k]);
      }
      StripNothing(ws[i], Whitespace);
    }
  }

  /** `any(x in tokens for x in listed)`. */
  predicate AnyListed(tokens: seq<string>, listed: seq<string>)
  {
    exists j :: 0 <= j < |listed| && listed[j] in tokens
  }

  /** The exit decision of `parse_args` as written: the error that ends the
      program, or the warnings printed before it goes on. */
  function Validation(a: Args): Result<seq<Warning>, ExitReason>
  {
    if a.yPresent && a.yAbsent then Failure(ConflictingOverrides)
    else if a.noPermTest then Failure(PermTestSwitchedOff)
    else if a.platypusCalling !in PlatypusModes then Failure(BadPlatypusCalling)
    else if |a.chromosomes| == 0 then Failure(NoChromosomes)
    else if |a.chromosomes| == 1 && !a.noPermTest then Failure(SingleChromosome)
    else if AnyListed(BwaArgs(a.bwaFlags), RedList) then Failure(ShellFlag)
    else if AnyListed(BwaArgs(a.bwaFlags), YellowList) then Failure(ReservedFlag)
    else Success(if |a.chromosomes| == 1 then [SingleChromosomeWarning] else [])
  }

  /** The exit decision the help text describes: `--no_perm_test` needs one
      of the overrides, and a single chromosome is then allowed with a
      warning. */
  function ValidationIntended(a: Args): Result<seq<Warning>, ExitReason>
  {
    if a.yPresent && a.yAbsent then Failure(ConflictingOverrides)
    else if a.noPermTest && !a.yPresent && !a.yAbsent then Failure(MissingOverride)
    else if a.platypusCalling !in PlatypusModes then Failure(BadPlatypusCalling)
    else if |a.chromosomes| == 0 then Failure(NoChromosomes)
    else if |a.chromosomes| == 1 && !a.noPermTest then Failure(SingleChromosome)
    else if AnyListed(BwaArgs(a.bwaFlags), RedList) then Failure(ShellFlag)
    else if AnyListed(BwaArgs(a.bwaFlags), YellowList) then Failure(ReservedFlag)
    else Success(if |a.chromosomes| == 1 then [SingleChromosomeWarning] else [])
  }

  /** Looks for a listed flag among the tokens, one listed flag at a time. */
  method FindListed(tokens: seq<string>, listed: seq<string>) returns (found: bool)
    ensures found <==> AnyListed(tokens, listed)
  {
    found := false;
    var j := 0;
    while j < |listed| && !found
      invariant 0 <= j <= |listed|
      invariant found <==> exists k :: 0 <= k < j && listed[k] in tokens
    {
      if listed[j] in tokens {
        found := true;
      }
      j := j + 1;
    }
  }

  /** The checks of `parse_args`, as written, in their order. */
  method ValidateArgs(a: Args) returns (r: Result<seq<Warning>, ExitReason>)
    ensures r == Validation(a)
  {
    if a.yPresent && a.yAbsent {
      return Failure(ConflictingOverrides);
    }
    if a.noPermTest {
      // the message is printed only without an override; the exit is not
      return Failure(PermTestSwitchedOff);
    }
    if a.platypusCalling !in PlatypusModes {
      return Failure(BadPlatypusCalling);
    }
    var warnings: seq<Warning> := [];
    if |a.chromosomes| == 0 {
      return Failure(NoChromosomes);
    } else if |a.chromosomes| == 1 {
      if !a.noPermTest {
        return Failure(SingleChromosome);
      }
      warnings := [SingleChromosomeWarning];
    }
    var bwaArgs := BwaArgs(a.bwaFlags);
    var red := FindListed(bwaArgs, RedList);
    if red {
      return Failure(ShellFlag);
    }
    var yellow := FindListed(bwaArgs, YellowList);
    if yellow {
      return Failure(ReservedFlag);
    }
    return Success(warnings);
  }

  /** What the checks accept, as written: no permutation-test switch-off at
      all, a known Platypus mode, at least two chromosomes and no listed
      BWA flag; nothing is ever warned about. */
  lemma ValidationAccepts(a: Args)
    ensures Validation(a).Success? <==>
      !(a.yPresent && a.yAbsent) && !a.noPermTest && a.platypusCalling in PlatypusModes &&
      |a.chromosomes| >= 2 &&
      (forall j :: 0 <= j < |RedList| ==> RedList[j] !in Words(a.bwaFlags)) &&
      (forall j :: 0 <= j < |YellowList| ==> YellowList[j] !in Words(a.bwaFlags))
    ensures Validation(a).Success? ==> Validation(a).value == []
  {
    BwaArgsAreWords(a.bwaFlags);
  }

  /** What the intended checks accept: `--no_perm_test` only with an
      override, and a single chromosome only with `--no_perm_test`, which
      then draws the warning. */
  lemma ValidationIntendedAccepts(a: Args)
    ensures ValidationIntended(a).Success? <==>
      !(a.yPresent && a.yAbsent) && (a.noPermTest ==> a.yPresent || a.yAbsent) &&
      a.platypusCalling in PlatypusModes &&
      (|a.chromosomes| >= 2 || (|a.chromosomes| == 1 && a.noPermTest)) &&
      (forall j :: 0 <= j < |RedList| ==> RedList[j] !in Words(a.bwaFlags)) &&
      (forall j :: 0 <= j < |YellowList| ==> YellowList[j] !in Words(a.bwaFlags))
    ensures ValidationIntended(a).Success? ==>
      (ValidationIntended(a).value == [SingleChromosomeWarning] <==> |a.chromosomes| == 1)
  {
    BwaArgsAreWords(a.bwaFlags);
  }

  /** As written, `--no_perm_test --y_present` on an otherwise valid
      command line ends the program, although the help text promises that
      the override makes the tests unnecessary. */
  lemma OverrideWithoutTestsRejected(a: Args)
    requires a.noPermTest && a.yPresent && !a.yAbsent
    requires a.platypusCalling in PlatypusModes && |a.chromosomes| >= 1
    requires forall j :: 0 <= j < |RedList| ==> RedList[j] !in Words(a.bwaFlags)
    requires forall j :: 0 <= j < |YellowList| ==> YellowList[j] !in Words(a.bwaFlags)
    ensures Validation(a) == Failure(PermTestSwitchedOff)
    ensures ValidationIntended(a).Success?
  {
    ValidationIntendedAccepts(a);
  }

  /** Under the intended checks the Y decision is made whenever there is an
      override or a Y list. `permCall` is what the permutation-test block
      leaves: the call from the X-versus-Y summary `sexPermRes` when the
      tests ran with a Y list, and unbound otherwise. */
  lemma IntendedValidationDecides(a: Args, y: Option<seq<string>>, sexPermRes: PermSummary,
                                  permCall: Option<bool>)
    requires ValidationIntended(a).Success?
    requires permCall == if !a.noPermTest && y.Some? then Some(StatisticalCall(sexPermRes)) else None
    ensures DecideYPresence(a.yPresent, a.yAbsent, permCall).Success? <==> a.yPresent || a.yAbsent || y.Some?
    ensures DecideYPresence(a.yPresent, a.yAbsent, permCall).Success? ==>
      DecideYPresence(a.yPresent, a.yAbsent, permCall).value ==
        if a.yPresent then true else if a.yAbsent then false else StatisticalCall(sexPermRes)
  {
    ValidationIntendedAccepts(a);
  }
}
