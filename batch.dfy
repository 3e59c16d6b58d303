/**
 * `batchByCharLimit`: cutting the list of files into consecutive batches,
 * greedily. Each file costs its content length plus its path length plus
 * 64; the current batch is closed just before a file that would take it
 * over the limit, unless it is still empty.
 */
module Batcher {
  import opened Records

  /** What each file adds beyond its content and path. */
  const Overhead := 64

  function Cost(f: FileDiff): nat {
    |f.content| + |f.path| + Overhead
  }

  /** The total cost of a batch. */
  function BatchCost(b: seq<FileDiff>): nat {
    if b == [] then 0 else BatchCost(b[..|b| - 1]) + Cost(b[|b| - 1])
  }

  lemma BatchCostAppend(b: seq<FileDiff>, f: FileDiff)
    ensures BatchCost(b + [f]) == BatchCost(b) + Cost(f)
  {
    assert (b + [f])[..|b|] == b;
  }

  /** The batches joined back into one list. */
  function Flatten(bs: seq<seq<FileDiff>>): seq<FileDiff> {
    if bs == [] then [] else Flatten(bs[..|bs| - 1]) + bs[|bs| - 1]
  }

  lemma FlattenAppend(bs: seq<seq<FileDiff>>, b: seq<FileDiff>)
    ensures Flatten(bs + [b]) == Flatten(bs) + b
  {
    assert (bs + [b])[..|bs|] == bs;
  }

  /** The loop's variables: the closed batches, the open batch and its
      running cost. */
  datatype State = State(done: seq<seq<FileDiff>>, cur: seq<FileDiff>, curLen: int)

  /** One iteration: close the open batch if it is not empty and `f` would
      take it over the limit, then add `f` to the open batch. */
  function Step(s: State, f: FileDiff, limit: int): State {
    var add := Cost(f);
    if s.cur != [] && s.curLen + add > limit then State(s.done + [s.cur], [f], add)
    else State(s.done, s.cur + [f], s.curLen + add)
  }

  /** The state after the loop has seen `files`. */
  function Run(files: seq<FileDiff>, limit: int): State {
    if files == [] then State([], [], 0)
    else Step(Run(files[..|files| - 1], limit), files[|files| - 1], limit)
  }

  /** The closed batches, followed by the open one when it is not empty. */
  function Close(s: State): seq<seq<FileDiff>> {
    if s.cur != [] then s.done + [s.cur] else s.done
  }

  /** The result of `batchByCharLimit(files, limit)`. */
  function Batched(files: seq<FileDiff>, limit: int): seq<seq<FileDiff>> {
    Close(Run(files, limit))
  }

  /** `batchByCharLimit`: one pass over the files, then the last batch is
      flushed. */
  method BatchByCharLimit(files: seq<FileDiff>, limit: int) returns (batches: seq<seq<FileDiff>>)
    ensures batches == Batched(files, limit)
  {
    batches := [];
    var cur: seq<FileDiff> := [];
    var curLen := 0;
    for i := 0 to |files|
      invariant Run(files[..i], limit) == State(batches, cur, curLen)
    {
      var f := files[i];
      assert files[..i + 1][..i] == files[..i];
      var add := |f.content| + |f.path| + Overhead;
      if cur != [] && curLen + add > limit {
        batches := batches + [cur];
        cur := [];
        curLen := 0;
      }
      cur := cur + [f];
      curLen := curLen + add;
    }
    assert files[..|files|] == files;
    if cur != [] {
      batches := batches + [cur];
    }
  }

  // ---------------------------------------------------------------------
  // What the batches satisfy.

  predicate AllNonEmpty(bs: seq<seq<FileDiff>>) {
    forall i :: 0 <= i < |bs| ==> bs[i] != []
  }

  /** Only a batch of a single file may cost more than the limit. */
  predicate WithinLimit(bs: seq<seq<FileDiff>>, limit: int) {
    forall i :: 0 <= i < |bs| && |bs[i]| >= 2 ==> BatchCost(bs[i]) <= limit
  }

  /** Each batch was closed because the first file of the next one did not
      fit in it. */
  predicate ClosedWhenFull(bs: seq<seq<FileDiff>>, limit: int) {
    forall j :: 1 <= j < |bs| && bs[j] != [] ==> BatchCost(bs[j - 1]) + Cost(bs[j][0]) > limit
  }

  lemma AllNonEmptyAppend(bs: seq<seq<FileDiff>>, b: seq<FileDiff>)
    requires AllNonEmpty(bs) && b != []
    ensures AllNonEmpty(bs + [b])
  {
    forall i | 0 <= i < |bs + [b]| ensures (bs + [b])[i] != [] {
      if i < |bs| {
        assert (bs + [b])[i] == bs[i];
      }
    }
  }

  lemma WithinLimitAppend(bs: seq<seq<FileDiff>>, b: seq<FileDiff>, limit: int)
    requires WithinLimit(bs, limit)
    requires |b| >= 2 ==> BatchCost(b) <= limit
    ensures WithinLimit(bs + [b], limit)
  {
    forall i | 0 <= i < |bs + [b]| && |(bs + [b])[i]| >= 2
      ensures BatchCost((bs + [b])[i]) <= limit
    {
      if i < |bs| {
        assert (bs + [b])[i] == bs[i];
      }
    }
  }

  lemma ClosedWhenFullAppend(bs: seq<seq<FileDiff>>, b: seq<FileDiff>, limit: int)
    requires ClosedWhenFull(bs, limit)
    requires bs != [] && b != [] ==> BatchCost(bs[|bs| - 1]) + Cost(b[0]) > limit
    ensures ClosedWhenFull(bs + [b], limit)
  {
    var bs' := bs + [b];
    forall j | 1 <= j < |bs'| && bs'[j] != []
      ensures BatchCost(bs'[j - 1]) + Cost(bs'[j][0]) > limit
    {
      assert bs'[j - 1] == bs[j - 1];
      if j < |bs| {
        assert bs'[j] == bs[j];
      }
    }
  }

  /** The loop invariant, stated on the state after `files`: the closed
      batches already satisfy the properties, and the open batch is ready
      to join them. */
  predicate Good(s: State, files: seq<FileDiff>, limit: int) {
    && (s.done != [] ==> s.cur != [])
    && s.curLen == BatchCost(s.cur)
    && AllNonEmpty(s.done)
    && WithinLimit(s.done, limit)
    && (|s.cur| >= 2 ==> BatchCost(s.cur) <= limit)
    && ClosedWhenFull(s.done, limit)
    && (s.done != [] ==> BatchCost(s.done[|s.done| - 1]) + Cost(s.cur[0]) > limit)
    && Flatten(s.done) + s.cur == files
  }

  /** Closing the open batch before `f` keeps the invariant. */
  lemma StepClosing(s: State, files: seq<FileDiff>, f: FileDiff, limit: int)
    requires Good(s, files, limit)
    requires s.cur != [] && s.curLen + Cost(f) > limit
    ensures Good(Step(s, f, limit), files + [f], limit)
  {
    var done := s.done + [s.cur];
    var s' := State(done, [f], Cost(f));
    assert Step(s, f, limit) == s';
    assert s'.curLen == BatchCost(s'.cur) by {
      BatchCostAppend([], f);
      assert [] + [f] == [f];
    }
    AllNonEmptyAppend(s.done, s.cur);
    WithinLimitAppend(s.done, s.cur, limit);
    ClosedWhenFullAppend(s.done, s.cur, limit);
    assert BatchCost(done[|done| - 1]) + Cost(s'.cur[0]) > limit by {
      assert done[|done| - 1] == s.cur;
    }
    assert Flatten(done) + [f] == files + [f] by {
      FlattenAppend(s.done, s.cur);
    }
  }

  /** Starting the first batch with `f` keeps the invariant. */
  lemma StepStarting(s: State, files: seq<FileDiff>, f: FileDiff, limit: int)
    requires Good(s, files, limit)
    requires s.cur == []
    ensures Good(Step(s, f, limit), files + [f], limit)
  {
    var s' := State([], [f], Cost(f));
    assert s.done == [];
    assert Step(s, f, limit) == s';
    assert files == [] by {
      assert Flatten(s.done) == [] && Flatten(s.done) + s.cur == files;
    }
    assert Cost(f) == BatchCost([f]) by {
      BatchCostAppend([], f);
      assert [] + [f] == [f];
    }
    assert AllNonEmpty([]) && WithinLimit([], limit) && ClosedWhenFull([], limit);
    assert Flatten([]) + [f] == files + [f];
  }

  /** Adding `f` to an open batch it fits in keeps the invariant. */
  lemma StepExtending(s: State, files: seq<FileDiff>, f: FileDiff, limit: int)
    requires Good(s, files, limit)
    requires s.cur != [] && s.curLen + Cost(f) <= limit
    ensures Good(Step(s, f, limit), files + [f], limit)
  {
    var cur := s.cur + [f];
    var s' := State(s.done, cur, s.curLen + Cost(f));
    assert Step(s, f, limit) == s';
    assert s'.curLen == BatchCost(cur) by {
      BatchCostAppend(s.cur, f);
    }
    assert cur[0] == s.cur[0];
    assert Flatten(s.done) + cur == files + [f];
  }

  /** Once the input is used up, the batches satisfy the properties. */
  lemma CloseGood(s: State, files: seq<FileDiff>, limit: int)
    requires Good(s, files, limit)
    ensures AllNonEmpty(Close(s))
    ensures WithinLimit(Close(s), limit)
    ensures ClosedWhenFull(Close(s), limit)
    ensures Flatten(Close(s)) == files
  {
    if s.cur != [] {
      AllNonEmptyAppend(s.done, s.cur);
      WithinLimitAppend(s.done, s.cur, limit);
      ClosedWhenFullAppend(s.done, s.cur, limit);
      FlattenAppend(s.done, s.cur);
    } else {
      assert Flatten(s.done) + [] == Flatten(s.done);
    }
  }

  /** One iteration keeps the invariant. */
  lemma StepGood(s: State, files: seq<FileDiff>, f: FileDiff, limit: int)
    requires Good(s, files, limit)
    ensures Good(Step(s, f, limit), files + [f], limit)
  {
    if s.cur == [] {
      StepStarting(s, files, f, limit);
    } else if s.curLen + Cost(f) > limit {
      StepClosing(s, files, f, limit);
    } else {
      StepExtending(s, files, f, limit);
    }
  }

  /** The invariant holds after every prefix of the input. */
  lemma {:induction false} RunGood(files: seq<FileDiff>, limit: int)
    ensures Good(Run(files, limit), files, limit)
  {
    if files != [] {
      var init := files[..|files| - 1];
      var f := files[|files| - 1];
      var s := Run(init, limit);
      assert Run(files, limit) == Step(s, f, limit);
      assert init + [f] == files;
      RunGood(init, limit);
      StepGood(s, init, f, limit);
    }
  }

  /** The batches, joined in order, are exactly the input: nothing is
      lost, repeated or reordered. */
  lemma BatchedPartition(files: seq<FileDiff>, limit: int)
    ensures Flatten(Batched(files, limit)) == files
  {
    RunGood(files, limit);
    CloseGood(Run(files, limit), files, limit);
  }

  /** No batch is empty. */
  lemma BatchedNonEmpty(files: seq<FileDiff>, limit: int)
    ensures forall i :: 0 <= i < |Batched(files, limit)| ==> Batched(files, limit)[i] != []
  {
    RunGood(files, limit);
    CloseGood(Run(files, limit), files, limit);
  }

  lemma {:induction false} FlattenEmpty(bs: seq<seq<FileDiff>>)
    requires AllNonEmpty(bs)
    ensures Flatten(bs) == [] <==> bs == []
  {
    if bs != [] {
      assert |Flatten(bs)| >= |bs[|bs| - 1]| > 0;
    }
  }

  /** There are no batches exactly when there are no files. */
  lemma BatchedEmptyIff(files: seq<FileDiff>, limit: int)
    ensures Batched(files, limit) == [] <==> files == []
  {
    RunGood(files, limit);
    CloseGood(Run(files, limit), files, limit);
    FlattenEmpty(Batched(files, limit));
  }

  /** A batch of two or more files costs at most the limit: only a single
      file that is too large on its own makes a batch over the limit. */
  lemma BatchedWithinLimit(files: seq<FileDiff>, limit: int)
    ensures forall i :: 0 <= i < |Batched(files, limit)| && |Batched(files, limit)[i]| >= 2 ==>
      BatchCost(Batched(files, limit)[i]) <= limit
  {
    RunGood(files, limit);
    CloseGood(Run(files, limit), files, limit);
  }

  /** Batches are as full as the greedy rule allows: each batch's cost plus
      the cost of the next batch's first file exceeds the limit. */
  lemma BatchedClosedWhenFull(files: seq<FileDiff>, limit: int)
    ensures AllNonEmpty(Batched(files, limit))
    ensures forall j :: 1 <= j < |Batched(files, limit)| ==>
      BatchCost(Batched(files, limit)[j - 1]) + Cost(Batched(files, limit)[j][0]) > limit
  {
    RunGood(files, limit);
    CloseGood(Run(files, limit), files, limit);
  }
}
