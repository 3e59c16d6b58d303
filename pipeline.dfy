/**
 * The composition `main` performs: the diff is split into files, the
 * files the allow and deny patterns pass are kept, they are batched by
 * the prompt size limit, each batch becomes one prompt, and the findings
 * of all the calls are put together for the report.
 */
module ReviewPipeline {
  import opened JavaText
  import opened Records
  import opened DiffSplitter
  import opened FileFilter
  import opened Batcher
  import opened PromptBuilder
  import opened ReviewClient

  /** The batches of files `main` sends for review. */
  function ReviewBatches(diff: string, allow: string -> bool, deny: string -> bool, limit: int)
    : seq<seq<FileDiff>>
  {
    Batched(Kept(SplitFiles(diff), allow, deny), limit)
  }

  /** One prompt per batch, in batch order. */
  function Prompts(diff: string, allow: string -> bool, deny: string -> bool, limit: int, preamble: string)
    : seq<string>
  {
    var bs := ReviewBatches(diff, allow, deny, limit);
    seq(|bs|, i requires 0 <= i < |bs| => Prompt(preamble, bs[i]))
  }

  /** Every file that passes the filters is sent exactly once, in diff
      order, in one of the batches; a blank diff sends nothing; and a
      prompt for two or more files stays within the instructions plus the
      limit. */
  lemma PromptsSpec(diff: string, allow: string -> bool, deny: string -> bool, limit: int, preamble: string)
    ensures Flatten(ReviewBatches(diff, allow, deny, limit)) == Kept(SplitFiles(diff), allow, deny)
    ensures forall f :: f in Flatten(ReviewBatches(diff, allow, deny, limit)) <==>
      f in SplitFiles(diff) && Keeps(f, allow, deny)
    ensures IsBlank(diff) ==> Prompts(diff, allow, deny, limit, preamble) == []
    ensures forall i ::
      (0 <= i < |Prompts(diff, allow, deny, limit, preamble)| && |ReviewBatches(diff, allow, deny, limit)[i]| >= 2)
      ==> |Prompts(diff, allow, deny, limit, preamble)[i]| <= |preamble| + limit - 86
  {
    var files := SplitFiles(diff);
    var kept := Kept(files, allow, deny);
    var bs := ReviewBatches(diff, allow, deny, limit);
    BatchedPartition(kept, limit);
    forall f ensures f in Flatten(bs) <==> f in files && Keeps(f, allow, deny) {
      KeptMembership(files, allow, deny, f);
    }
    if IsBlank(diff) {
      BlankDiffHasNoFiles(diff);
      BatchedEmptyIff(kept, limit);
    }
    BatchedWithinLimit(kept, limit);
    forall i | 0 <= i < |bs| && |bs[i]| >= 2
      ensures |Prompts(diff, allow, deny, limit, preamble)[i]| <= |preamble| + limit - 86
    {
      PromptWithinLimit(preamble, bs[i], limit);
    }
  }

  /** The batches with the corrected split, which tests the path for
      blankness after trimming it. */
  function CheckedReviewBatches(diff: string, allow: string -> bool, deny: string -> bool, limit: int)
    : seq<seq<FileDiff>>
  {
    Batched(Kept(SplitFilesChecked(diff), allow, deny), limit)
  }

  /** With the corrected split the files sent are those `main` sends less
      the ones whose path is blank, still once each and in order, and no
      file sent has a blank path. */
  lemma CheckedBatchesSpec(diff: string, allow: string -> bool, deny: string -> bool, limit: int)
    ensures Flatten(CheckedReviewBatches(diff, allow, deny, limit))
         == NonBlankPaths(Flatten(ReviewBatches(diff, allow, deny, limit)))
    ensures forall f :: f in Flatten(CheckedReviewBatches(diff, allow, deny, limit)) <==>
      f in Flatten(ReviewBatches(diff, allow, deny, limit)) && !IsBlank(f.path)
    ensures forall f :: f in Flatten(CheckedReviewBatches(diff, allow, deny, limit)) ==> !IsBlank(f.path)
  {
    var files := SplitFiles(diff);
    var kept := Kept(files, allow, deny);
    BatchedPartition(kept, limit);
    BatchedPartition(Kept(SplitFilesChecked(diff), allow, deny), limit);
    CheckedDropsBlankPaths(diff);
    KeptNonBlankPaths(files, allow, deny);
    forall f ensures f in NonBlankPaths(kept) <==> f in kept && !IsBlank(f.path) {
      NonBlankPathsMembership(kept, f);
    }
  }

  /** Filtering and dropping blank paths commute. */
  lemma {:induction false} KeptNonBlankPaths(files: seq<FileDiff>, allow: string -> bool, deny: string -> bool)
    ensures Kept(NonBlankPaths(files), allow, deny) == NonBlankPaths(Kept(files, allow, deny))
  {
    if files != [] {
      var init, f := files[..|files| - 1], files[|files| - 1];
      KeptNonBlankPaths(init, allow, deny);
      var blankDropped := if IsBlank(f.path) then [] else [f];
      var kept := if Keeps(f, allow, deny) then [f] else [];
      assert NonBlankPaths(files) == NonBlankPaths(init) + blankDropped;
      assert Kept(files, allow, deny) == Kept(init, allow, deny) + kept;
      KeptAppend(NonBlankPaths(init), blankDropped, allow, deny);
      NonBlankPathsAppend(Kept(init, allow, deny), kept);
      KeptSingle(f, allow, deny);
      NonBlankPathsSingle(f);
      assert Kept(blankDropped, allow, deny) == NonBlankPaths(kept);
    }
  }

  lemma NonBlankPathsSingle(f: FileDiff)
    ensures NonBlankPaths([f]) == if IsBlank(f.path) then [] else [f]
  {
    assert [f][..0] == [];
  }

  lemma KeptSingle(f: FileDiff, allow: string -> bool, deny: string -> bool)
    ensures Kept([f], allow, deny) == if Keeps(f, allow, deny) then [f] else []
  {
    assert [f][..0] == [];
  }

  /** The findings of the batches' calls, in batch order; the first failed
      call ends the run with its exception, and nothing is reported. */
  function Gather(outcomes: seq<Outcome>): Option<seq<Finding>>
  {
    if outcomes == [] then Some([])
    else
      var last := outcomes[|outcomes| - 1];
      match Gather(outcomes[..|outcomes| - 1])
      case None => None
      case Some(fs) => if last.Failed? then None else Some(fs + last.findings)
  }

  /** The run reaches the report exactly when no call failed, and then,
      since a call yields at most one finding, the report has at most one
      finding per batch. */
  lemma {:induction false} GatherSpec(outcomes: seq<Outcome>)
    ensures Gather(outcomes).Some? <==> forall i :: 0 <= i < |outcomes| ==> outcomes[i].Findings?
    ensures (forall i :: 0 <= i < |outcomes| ==> outcomes[i].Findings? && |outcomes[i].findings| <= 1)
      ==> |Gather(outcomes).value| <= |outcomes|
  {
    if outcomes != [] {
      var init := outcomes[..|outcomes| - 1];
      GatherSpec(init);
      assert forall i :: 0 <= i < |init| ==> init[i] == outcomes[i];
    }
  }
}
