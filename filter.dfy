/**
 * `filterFiles`: keeping the files worth reviewing, in order. A file is
 * kept when the allow-list pattern is found in its path, the deny-list
 * pattern is not, and its content is at most 120 000 characters long.
 */
module FileFilter {
  import opened Records

  /** Files with a longer content are skipped. */
  const MaxContentLength := 120_000

  /** One file passes all three tests. */
  predicate Keeps(f: FileDiff, allow: string -> bool, deny: string -> bool) {
    allow(f.path) && !deny(f.path) && |f.content| <= MaxContentLength
  }

  /** The files that pass, in their original order. */
  function Kept(files: seq<FileDiff>, allow: string -> bool, deny: string -> bool): seq<FileDiff>
  {
    if files == [] then []
    else
      var f := files[|files| - 1];
      Kept(files[..|files| - 1], allow, deny) + (if Keeps(f, allow, deny) then [f] else [])
  }

  /** `filterFiles`: one pass, skipping a file at the first test it fails. */
  method FilterFiles(files: seq<FileDiff>, allow: string -> bool, deny: string -> bool)
    returns (out: seq<FileDiff>)
    ensures out == Kept(files, allow, deny)
  {
    out := [];
    for i := 0 to |files|
      invariant out == Kept(files[..i], allow, deny)
    {
      var f := files[i];
      assert files[..i + 1][..i] == files[..i];
      var p := f.path;
      if !allow(p) {
        continue;
      }
      if deny(p) {
        continue;
      }
      if |f.content| > MaxContentLength {
        continue;
      }
      out := out + [f];
    }
    assert files[..|files|] == files;
  }

  /** A file is kept exactly when it is one of the input files and passes. */
  lemma {:induction false} KeptMembership(
    files: seq<FileDiff>, allow: string -> bool, deny: string -> bool, f: FileDiff)
    ensures f in Kept(files, allow, deny) <==> f in files && Keeps(f, allow, deny)
  {
    if files != [] {
      var init := files[..|files| - 1];
      KeptMembership(init, allow, deny, f);
      assert files == init + [files[|files| - 1]];
    }
  }

  /** `xs` is `ys` with some elements left out, the rest in the same order. */
  predicate IsSubsequence<T(==)>(xs: seq<T>, ys: seq<T>)
    decreases |ys|
  {
    if xs == [] then true
    else if ys == [] then false
    else
      || IsSubsequence(xs, ys[..|ys| - 1])
      || (xs[|xs| - 1] == ys[|ys| - 1] && IsSubsequence(xs[..|xs| - 1], ys[..|ys| - 1]))
  }

  /** Filtering only leaves files out: it keeps their order. */
  lemma {:induction false} KeptIsSubsequence(
    files: seq<FileDiff>, allow: string -> bool, deny: string -> bool)
    ensures IsSubsequence(Kept(files, allow, deny), files)
  {
    if files != [] {
      var init := files[..|files| - 1];
      var f := files[|files| - 1];
      KeptIsSubsequence(init, allow, deny);
      var k := Kept(files, allow, deny);
      if Keeps(f, allow, deny) {
        assert k[..|k| - 1] == Kept(init, allow, deny);
      } else {
        assert k == Kept(init, allow, deny);
        assert files == init + [f];
        SubsequenceOfLonger(k, init, f);
      }
    }
  }

  /** A subsequence of `ys` is one of `ys + [y]` as well. */
  lemma {:induction false} SubsequenceOfLonger<T>(xs: seq<T>, ys: seq<T>, y: T)
    requires IsSubsequence(xs, ys)
    ensures IsSubsequence(xs, ys + [y])
  {
    assert (ys + [y])[..|ys|] == ys;
  }

  /** Filtering twice keeps what filtering once keeps. */
  lemma {:induction false} KeptIdempotent(
    files: seq<FileDiff>, allow: string -> bool, deny: string -> bool)
    ensures Kept(Kept(files, allow, deny), allow, deny) == Kept(files, allow, deny)
  {
    if files != [] {
      var init := files[..|files| - 1];
      var f := files[|files| - 1];
      KeptIdempotent(init, allow, deny);
      var k := Kept(files, allow, deny);
      if Keeps(f, allow, deny) {
        assert k[..|k| - 1] == Kept(init, allow, deny) && k[|k| - 1] == f;
      } else {
        assert k == Kept(init, allow, deny);
      }
    }
  }

  /** Filtering a concatenation filters each part. */
  lemma {:induction false} KeptAppend(
    a: seq<FileDiff>, b: seq<FileDiff>, allow: string -> bool, deny: string -> bool)
    ensures Kept(a + b, allow, deny) == Kept(a, allow, deny) + Kept(b, allow, deny)
    decreases |b|
  {
    if b == [] {
      assert a + b == a;
    } else {
      var b' := b[..|b| - 1];
      KeptAppend(a, b', allow, deny);
      assert (a + b)[..|a + b| - 1] == a + b' && (a + b)[|a + b| - 1] == b[|b| - 1];
    }
  }
}
