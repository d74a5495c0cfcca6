/** The read-group loop of the remapping step: for every line of the
    read-group file (its ID followed by its FASTQ files) the loop looks up
    the matching `@RG` header among the header lines, and queues one BWA
    mapping with that header as its tag.  The mapping itself is a foreign
    process; the model returns the queued jobs. */
module Remap {
  import opened Results
  import opened Seqs
  import opened Text

  /** One call of the mapping step: read-group ID, FASTQ files and `-R` tag. */
  datatype MappingJob = MappingJob(rgId: string, fastqs: seq<string>, rgTag: string)

  datatype RemapError =
    | BlankReadGroupLine   // `i[0]` on the empty token list of a blank line (IndexError)
    | ReadGroupTagUnbound  // no header matched before any tag was assigned (NameError)

  /** `k[0:2] == 'ID'`. */
  predicate IsIdToken(k: string)
  {
    |k| >= 2 && k[..2] == "ID"
  }

  /** `k[3:]`: the text after `ID:`, empty for short tokens. */
  function AfterId(k: string): string
  {
    if |k| >= 3 then k[3..] else ""
  }

  /** The ID the inner loop reads from one header line: the one of its first
      `ID` token (the loop breaks there whether or not it matches). */
  function HeaderId(j: seq<string>): Option<string>
  {
    if j == [] then None
    else if IsIdToken(j[0]) then Some(AfterId(j[0]))
    else HeaderId(j[1..])
  }

  /** `rg_tag` after the loop over the header lines: the tab-joined tokens of
      the last header whose ID is `rgId`, or the tag left from before. */
  function TagFor(headers: seq<seq<string>>, rgId: string, previous: Option<string>): Option<string>
  {
    if headers == [] then previous
    else
      var n := |headers| - 1;
      if HeaderId(headers[n]) == Some(rgId) then Some(Join(headers[n], '\t'))
      else TagFor(headers[..n], rgId, previous)
  }

  /** The jobs queued for the read-group lines `groups` (each already split
      into tokens), with `previous` the tag left by earlier lines. */
  function Jobs(groups: seq<seq<string>>, headers: seq<seq<string>>, previous: Option<string>)
    : Result<seq<MappingJob>, RemapError>
    decreases |groups|
  {
    if groups == [] then Success([])
    else if groups[0] == [""] then Jobs(groups[1..], headers, previous)
    else if groups[0] == [] then Failure(BlankReadGroupLine)
    else
      var tag := TagFor(headers, groups[0][0], previous);
      if tag.None? then Failure(ReadGroupTagUnbound)
      else
        var rest := Jobs(groups[1..], headers, tag);
        if rest.Failure? then rest
        else Success([MappingJob(groups[0][0], groups[0][1..], tag.value)] + rest.value)
  }

  /** `jobs` queued before `r`'s; an error stops everything. */
  function Prepend(jobs: seq<MappingJob>, r: Result<seq<MappingJob>, RemapError>): Result<seq<MappingJob>, RemapError>
  {
    if r.Failure? then r else Success(jobs + r.value)
  }

  lemma PrependTwice(a: seq<MappingJob>, b: seq<MappingJob>, r: Result<seq<MappingJob>, RemapError>)
    ensures Prepend(a, Prepend(b, r)) == Prepend(a + b, r)
    ensures Prepend([], r) == r
  {
    if r.Success? {
      assert a + (b + r.value) == (a + b) + r.value;
      assert [] + r.value == r.value;
    }
  }

  /** The header lookup of one header line: the inner `for k in j` loop. */
  method LookUpHeader(j: seq<string>, rgId: string, rgTag: Option<string>) returns (tag: Option<string>)
    ensures tag == if HeaderId(j) == Some(rgId) then Some(Join(j, '\t')) else rgTag
  {
    tag := rgTag;
    var kk := 0;
    while kk < |j|
      invariant 0 <= kk <= |j|
      invariant HeaderId(j) == HeaderId(j[kk..])
    {
      assert j[kk..] == [j[kk]] + j[kk + 1..];
      var k := j[kk];
      if IsIdToken(k) {
        if AfterId(k) == rgId {
          tag := Some(Join(j, '\t'));
        }
        break;
      }
      kk := kk + 1;
    }
  }

  /** Lines 386-402: queue one mapping per read-group line. */
  method ReadGroupJobs(groups: seq<seq<string>>, headers: seq<seq<string>>)
    returns (r: Result<seq<MappingJob>, RemapError>)
    ensures r == Jobs(groups, headers, None)
  {
    var tempBamList: seq<MappingJob> := [];
    var rgTag: Option<string> := None;
    var g := 0;
    PrependTwice([], [], Jobs(groups, headers, None));
    while g < |groups|
      invariant 0 <= g <= |groups|
      invariant Jobs(groups, headers, None) == Prepend(tempBamList, Jobs(groups[g..], headers, rgTag))
    {
      var i := groups[g];
      assert groups[g..][1..] == groups[g + 1..];
      if i != [""] {
        if i == [] {
          return Failure(BlankReadGroupLine);
        }
        var rgId := i[0];
        var fastqFiles := i[1..];
        var h := 0;
        ghost var before := rgTag;
        while h < |headers|
          invariant 0 <= h <= |headers|
          invariant rgTag == TagFor(headers[..h], rgId, before)
        {
          assert headers[..h + 1][..h] == headers[..h];
          rgTag := LookUpHeader(headers[h], rgId, rgTag);
          h := h + 1;
        }
        assert headers[..h] == headers;
        if rgTag.None? {
          return Failure(ReadGroupTagUnbound);
        }
        PrependTwice(tempBamList, [MappingJob(rgId, fastqFiles, rgTag.value)], Jobs(groups[g + 1..], headers, rgTag));
        tempBamList := tempBamList + [MappingJob(rgId, fastqFiles, rgTag.value)];
      }
      g := g + 1;
    }
    assert groups[g..] == [];
    assert tempBamList + [] == tempBamList;
    r := Success(tempBamList);
  }

  /** With no line skipped by the `[""]` guard, a successful run queues one
      job per read-group line, in order, with that line's ID and files. */
  lemma {:induction false} JobsFollowLines(groups: seq<seq<string>>, headers: seq<seq<string>>, previous: Option<string>)
    requires forall i :: 0 <= i < |groups| ==> groups[i] != [""]
    ensures var r := Jobs(groups, headers, previous);
      r.Success? ==>
        |r.value| == |groups| &&
        forall i :: 0 <= i < |groups| ==>
          groups[i] != [] && r.value[i].rgId == groups[i][0] && r.value[i].fastqs == groups[i][1..]
    ensures (exists i :: 0 <= i < |groups| && groups[i] == []) ==> Jobs(groups, headers, previous).Failure?
    decreases |groups|
  {
    if groups != [] && groups[0] != [] {
      var tag := TagFor(headers, groups[0][0], previous);
      if tag.Some? {
        JobsFollowLines(groups[1..], headers, tag);
        assert forall i :: 1 <= i < |groups| ==> groups[i] == groups[1..][i - 1];
      }
    }
  }

  /** Without a header line carrying `rgId` the tag left from the
      previous read group is reused. */
  lemma {:induction false} TagForNoMatch(headers: seq<seq<string>>, rgId: string, previous: Option<string>)
    requires forall m :: 0 <= m < |headers| ==> HeaderId(headers[m]) != Some(rgId)
    ensures TagFor(headers, rgId, previous) == previous
  {
    if headers != [] {
      var n := |headers| - 1;
      assert forall m :: 0 <= m < n ==> headers[..n][m] == headers[m];
      TagForNoMatch(headers[..n], rgId, previous);
    }
  }

  /** With a header line carrying `rgId`, the tag is the last such line
      joined by tabs. */
  lemma {:induction false} TagForLastMatch(headers: seq<seq<string>>, rgId: string, previous: Option<string>, m: nat)
    requires m < |headers| && HeaderId(headers[m]) == Some(rgId)
    requires forall l :: m < l < |headers| ==> HeaderId(headers[l]) != Some(rgId)
    ensures TagFor(headers, rgId, previous) == Some(Join(headers[m], '\t'))
  {
    var n := |headers| - 1;
    if m < n {
      assert headers[..n][m] == headers[m];
      assert forall l :: m < l < n ==> headers[..n][l] == headers[l];
      TagForLastMatch(headers[..n], rgId, previous, m);
    }
  }

  /** The tag is the matched header line itself: split at tabs it gives
      back the line's tokens, whose ID is the read group's. */
  lemma TagSplitsBack(headers: seq<seq<string>>, m: nat, rgId: string)
    requires m < |headers| && HeaderId(headers[m]) == Some(rgId)
    requires forall k :: 0 <= k < |headers[m]| ==> '\t' !in headers[m][k]
    ensures Split(Join(headers[m], '\t'), '\t') == headers[m]
    ensures HeaderId(Split(Join(headers[m], '\t'), '\t')) == Some(rgId)
  {
    SplitJoin(headers[m], '\t');
  }

  /** The jobs the loop evidently meant to queue: blank lines skipped. */
  function JobsIntended(groups: seq<seq<string>>, headers: seq<seq<string>>): Result<seq<MappingJob>, RemapError>
  {
    Jobs(Filter(g => g != [] && g != [""], groups), headers, None)
  }

  lemma {:induction false} JobsWithoutBlankLines(groups: seq<seq<string>>, headers: seq<seq<string>>, previous: Option<string>)
    requires forall i :: 0 <= i < |groups| ==> groups[i] != []
    ensures Jobs(groups, headers, previous) != Failure(BlankReadGroupLine)
    decreases |groups|
  {
    if groups != [] {
      var tag := TagFor(headers, groups[0][0], previous);
      if groups[0] == [""] {
        JobsWithoutBlankLines(groups[1..], headers, previous);
      } else if tag.Some? {
        JobsWithoutBlankLines(groups[1..], headers, tag);
      }
    }
  }

  /** A blank read-group line never stops the intended loop. */
  lemma BlankLinesSkipped(groups: seq<seq<string>>, headers: seq<seq<string>>)
    ensures JobsIntended(groups, headers) != Failure(BlankReadGroupLine)
  {
    var kept := Filter(g => g != [] && g != [""], groups);
    JobsWithoutBlankLines(kept, headers, None);
  }

  /** As written, a blank line (split into no tokens, which the `[""]` guard
      does not catch) aborts the remapping even when every read group has
      its header. */
  lemma BlankLineAborts()
    ensures Jobs([[], ["rg1", "r1.fq"]], [["@RG", "ID:rg1"]], None) == Failure(BlankReadGroupLine)
    ensures JobsIntended([[], ["rg1", "r1.fq"]], [["@RG", "ID:rg1"]]).Success?
  {
    var groups: seq<seq<string>> := [[], ["rg1", "r1.fq"]];
    assert Filter(g => g != [] && g != [""], groups) == [["rg1", "r1.fq"]];
    assert "@RG"[..2][0] == '@';
    assert !IsIdToken("@RG");
    assert IsIdToken("ID:rg1") && AfterId("ID:rg1") == "rg1";
    assert ["@RG", "ID:rg1"][1..] == ["ID:rg1"];
    assert HeaderId(["@RG", "ID:rg1"]) == Some("rg1");
  }
}
