/**
 * `splitByFile`: cutting a unified git diff into one `FileDiff` per file.
 *
 * The diff is split at every occurrence of the marker `diff --git ` that
 * starts a line (Java's `split("(?m)^diff --git ")`); each non-blank chunk
 * names its file on its first line, `a/X b/Y`, and becomes
 * `FileDiff(Y.trim(), "diff --git " + chunk)`.
 */
module DiffSplitter {
  import opened JavaText
  import opened Records

  /** The per-file header marker. */
  const Marker := "diff --git "

  /** The marker occurs in `t` at `q` and `q` starts a line. Position 0 of
      `t` starts a line only when `t` is the whole input (`atInputStart`);
      otherwise `t` follows a previous marker, whose last char is a space. */
  predicate MarkerAt(t: string, q: nat, atInputStart: bool) {
    && q + |Marker| <= |t|
    && t[q..q + |Marker|] == Marker
    && (if q == 0 then atInputStart else IsLineTerminator(t[q - 1]))
  }

  /** Where the next match of the split pattern starts, at or after `q`;
      |t| when there is none. */
  function NextMarker(t: string, q: nat, atInputStart: bool): (p: nat)
    requires q <= |t|
    ensures q <= p <= |t|
    ensures p < |t| ==> MarkerAt(t, p, atInputStart)
    ensures forall k :: q <= k < p ==> !MarkerAt(t, k, atInputStart)
    decreases |t| - q
  {
    if q == |t| || MarkerAt(t, q, atInputStart) then q
    else NextMarker(t, q + 1, atInputStart)
  }

  /** The text between consecutive matches, before `String.split` removes
      trailing empty strings. A match at position 0 gives a leading "". */
  function Pieces(t: string, atInputStart: bool): (r: seq<string>)
    ensures r != []
    decreases |t|
  {
    var p := NextMarker(t, 0, atInputStart);
    if p == |t| then [t] else [t[..p]] + Pieces(t[p + |Marker|..], false)
  }

  function DropTrailingEmpty(ps: seq<string>): seq<string>
  {
    if ps != [] && ps[|ps| - 1] == "" then DropTrailingEmpty(ps[..|ps| - 1]) else ps
  }

  /** `diff.split("(?m)^diff --git ")`: without a match the whole input,
      otherwise the pieces with trailing empty strings removed. */
  function Chunks(diff: string): seq<string>
  {
    var ps := Pieces(diff, true);
    if |ps| == 1 then ps else DropTrailingEmpty(ps)
  }

  /** `s.indexOf(c, from)`, with |s| standing for Java's -1. */
  function IndexOf(s: string, c: char, from: nat): (i: nat)
    requires from <= |s|
    ensures from <= i <= |s|
    ensures i < |s| ==> s[i] == c
    ensures forall k :: from <= k < i ==> s[k] != c
    decreases |s| - from
  {
    if from == |s| || s[from] == c then from else IndexOf(s, c, from + 1)
  }

  /** The chunk's first line; the whole chunk when it has no newline or
      starts with one. */
  function Header(chunk: string): string
  {
    var nl := IndexOf(chunk, '\n', 0);
    if 0 < nl < |chunk| then chunk[..nl] else chunk
  }

  /** `header.replaceFirst("^a/[^ ]+ b/", "")`: `[^ ]+` can only end at the
      first space after "a/", which must be followed by "b/". */
  function StripSourcePath(header: string): string
  {
    if |header| >= 2 && header[..2] == "a/" then
      var k := IndexOf(header, ' ', 2);
      if 2 < k && k + 3 <= |header| && header[k..k + 3] == " b/" then header[k + 3..]
      else header
    else header
  }

  predicate StartsWithMarker(s: string) {
    |Marker| <= |s| && s[..|Marker|] == Marker
  }

  /** What one chunk contributes: nothing when the chunk or the path in its
      header is blank, otherwise the trimmed path and the re-marked chunk. */
  function ChunkFile(chunk: string): (r: Option<FileDiff>)
    ensures r.Some? ==> Trimmed(r.value.path) && StartsWithMarker(r.value.content)
  {
    if IsBlank(chunk) then None
    else
      var path := StripSourcePath(Header(chunk));
      if IsBlank(path) then None
      else
        TrimIsTrimmed(path);
        Some(FileDiff(Trim(path), Marker + chunk))
  }

  function OptionToSeq<T>(o: Option<T>): seq<T> {
    if o.Some? then [o.value] else []
  }

  /** The values `f` gives for the elements of `xs` that it maps to
      something, in order. */
  function FilterMap<A, B>(f: A -> Option<B>, xs: seq<A>): seq<B>
  {
    if xs == [] then []
    else FilterMap(f, xs[..|xs| - 1]) + OptionToSeq(f(xs[|xs| - 1]))
  }

  lemma {:induction false} FilterMapAppend<A, B>(f: A -> Option<B>, a: seq<A>, b: seq<A>)
    ensures FilterMap(f, a + b) == FilterMap(f, a) + FilterMap(f, b)
    decreases |b|
  {
    if b == [] {
      assert a + b == a;
    } else {
      var b' := b[..|b| - 1];
      FilterMapAppend(f, a, b');
      assert (a + b)[..|a + b| - 1] == a + b' && (a + b)[|a + b| - 1] == b[|b| - 1];
    }
  }

  lemma FilterMapSingle<A, B>(f: A -> Option<B>, x: A)
    ensures FilterMap(f, [x]) == OptionToSeq(f(x))
  {
    assert [x][..0] == [];
  }

  /** The files of a sequence of chunks, in order. */
  function FilesOf(chunks: seq<string>): seq<FileDiff>
  {
    FilterMap(ChunkFile, chunks)
  }

  /** Every file of a sequence of chunks has a trimmed path and a content
      that starts with the marker, and there are at most as many files as
      chunks. */
  lemma {:induction false} FilesOfShape(chunks: seq<string>)
    ensures |FilesOf(chunks)| <= |chunks|
    ensures forall i :: 0 <= i < |FilesOf(chunks)| ==>
      Trimmed(FilesOf(chunks)[i].path) && StartsWithMarker(FilesOf(chunks)[i].content)
  {
    if chunks != [] {
      FilesOfShape(chunks[..|chunks| - 1]);
      assert FilesOf(chunks) ==
        FilesOf(chunks[..|chunks| - 1]) + OptionToSeq(ChunkFile(chunks[|chunks| - 1]));
    }
  }

  /** The result of `splitByFile(diff)`. */
  function SplitFiles(diff: string): seq<FileDiff>
  {
    FilesOf(Chunks(diff))
  }

  /** `splitByFile`: one pass over the chunks, appending to `out`. */
  method SplitByFile(diff: string) returns (out: seq<FileDiff>)
    ensures out == SplitFiles(diff)
  {
    var chunks := Chunks(diff);
    out := [];
    var i := 0;
    while i < |chunks|
      invariant 0 <= i <= |chunks|
      invariant out == FilterMap(ChunkFile, chunks[..i])
    {
      var c := chunks[i];
      assert FilterMap(ChunkFile, chunks[..i + 1])
          == FilterMap(ChunkFile, chunks[..i]) + OptionToSeq(ChunkFile(c)) by {
        assert chunks[..i + 1][..i] == chunks[..i];
      }
      if !IsBlank(c) {
        var nl := IndexOf(c, '\n', 0);
        var header := if 0 < nl < |c| then c[..nl] else c;
        var path := StripSourcePath(header);
        if !IsBlank(path) {
          out := out + [FileDiff(Trim(path), Marker + c)];
        }
      }
      i := i + 1;
    }
    assert chunks[..i] == chunks;
  }

  /** A diff cut into two chunks gives the files of those two chunks. */
  lemma SplitFilesOfTwoChunks(d: string, c1: string, c2: string)
    requires Chunks(d) == [c1, c2]
    ensures SplitFiles(d) == OptionToSeq(ChunkFile(c1)) + OptionToSeq(ChunkFile(c2))
  {
    FilterMapAppend(ChunkFile, [c1], [c2]);
    assert [c1, c2] == [c1] + [c2];
    FilterMapSingle(ChunkFile, c1);
    FilterMapSingle(ChunkFile, c2);
  }

  // ---------------------------------------------------------------------
  // Text before the first marker.

  lemma {:induction false} DropTrailingEmptyKeepsHead(ps: seq<string>)
    requires ps != [] && ps[0] != ""
    ensures DropTrailingEmpty(ps) != [] && DropTrailingEmpty(ps)[0] == ps[0]
    decreases |ps|
  {
    if ps[|ps| - 1] == "" {
      DropTrailingEmptyKeepsHead(ps[..|ps| - 1]);
    }
  }

  /** Text before the first marker is not discarded: when it ends a line
      and none of its lines starts with the marker, it is the first chunk. */
  lemma LeadingTextIsFirstChunk(pre: string, t: string)
    requires pre != [] && IsLineTerminator(pre[|pre| - 1])
    requires forall k :: 0 <= k < |pre| ==> !MarkerAt(pre + Marker + t, k, true)
    ensures Chunks(pre + Marker + t) != [] && Chunks(pre + Marker + t)[0] == pre
  {
    var d := pre + Marker + t;
    var n := |pre|;
    assert d[n..n + |Marker|] == Marker && d[n - 1] == pre[n - 1];
    assert MarkerAt(d, n, true);
    assert d[..n] == pre;
    var ps := Pieces(d, true);
    assert ps == [pre] + Pieces(t, false) by {
      assert d[n + |Marker|..] == t;
    }
    DropTrailingEmptyKeepsHead(ps);
  }

  /** A chunk whose first line `l` is not blank and is not an `a/...`
      header yields a file named after that line, trimmed, with the marker
      put in front of the chunk. */
  lemma LeadingChunkFile(l: string, rest: string)
    requires '\n' !in l && !IsBlank(l) && !(|l| >= 2 && l[..2] == "a/")
    ensures ChunkFile(l + "\n" + rest) == Some(FileDiff(Trim(l), Marker + (l + "\n" + rest)))
  {
    var c := l + "\n" + rest;
    assert c[..|l|] == l;
    assert !IsBlank(c) by {
      var k :| 0 <= k < |l| && !IsWhitespace(l[k]);
      assert c[k] == l[k];
    }
    forall k | 0 <= k < |l| ensures c[k] != '\n' {
      assert c[k] == l[k];
    }
    assert c[|l|] == '\n';
    assert IndexOf(c, '\n', 0) == |l|;
    assert Header(c) == l;
  }

  lemma FilterMapHead<A, B>(f: A -> Option<B>, xs: seq<A>)
    requires xs != [] && f(xs[0]).Some?
    ensures FilterMap(f, xs) != [] && FilterMap(f, xs)[0] == f(xs[0]).value
  {
    assert xs == [xs[0]] + xs[1..];
    FilterMapAppend(f, [xs[0]], xs[1..]);
    FilterMapSingle(f, xs[0]);
  }

  /** When the first chunk yields a file, that file comes first. */
  lemma FirstChunkFirstFile(d: string, c: string)
    requires Chunks(d) != [] && Chunks(d)[0] == c && ChunkFile(c).Some?
    ensures SplitFiles(d) != [] && SplitFiles(d)[0] == ChunkFile(c).value
  {
    FilterMapHead(ChunkFile, Chunks(d));
  }

  /** A diff whose leading text ends a line and holds no marker at a line
      start yields, as its first file, the leading text under the name of
      its first line. */
  lemma LeadingTextFirstFile(l: string, rest: string, t: string)
    requires '\n' !in l && !IsBlank(l) && !(|l| >= 2 && l[..2] == "a/")
    requires var pre := l + "\n" + rest; IsLineTerminator(pre[|pre| - 1])
    requires var pre := l + "\n" + rest;
      forall k :: 0 <= k < |pre| ==> !MarkerAt(pre + Marker + t, k, true)
    ensures var pre := l + "\n" + rest;
      SplitFiles(pre + Marker + t) != [] &&
      SplitFiles(pre + Marker + t)[0] == FileDiff(Trim(l), Marker + pre)
  {
    var pre := l + "\n" + rest;
    var d := pre + Marker + t;
    LeadingTextIsFirstChunk(pre, t);
    LeadingChunkFile(l, rest);
    FirstChunkFirstFile(d, pre);
  }

  // ---------------------------------------------------------------------
  // A path that is blank only once trimmed.

  /** The chunks of `diff --git a/x b/U+0001`: the empty text before the
      marker and the header after it. */
  lemma ChunksOfControlPath()
    ensures Chunks("diff --git a/x b/\U{1}") == ["", "a/x b/\U{1}"]
  {
    var c := "a/x b/\U{1}";
    assert "diff --git a/x b/\U{1}" == Marker + c;
    PiecesAfterLeadingMarker(c);
    assert NextMarker(c, 0, false) == |c|;
  }

  /** The header `a/x b/U+0001` names the path U+0001, which is not blank,
      and trimming it leaves the empty path. */
  lemma ChunkFileOfControlPath()
    ensures ChunkFile("a/x b/\U{1}") == Some(FileDiff("", "diff --git a/x b/\U{1}"))
  {
    var c := "a/x b/\U{1}";
    assert !IsWhitespace(c[0]);
    assert IndexOf(c, '\n', 0) == |c|;
    assert IndexOf(c, ' ', 2) == 3;
    var path := StripSourcePath(Header(c));
    assert path == "\U{1}";
    assert !IsWhitespace(path[0]);
    assert TrimLow(path, 0) == 1;
    assert Trim(path) == "";
    assert Marker + c == "diff --git a/x b/\U{1}";
  }

  /** As written, a header path made of control characters passes the
      blank test (they are not whitespace) and `trim` then empties it. */
  lemma BlankPathSlipsThrough()
    ensures var d := "diff --git a/x b/\U{1}";
      SplitFiles(d) == [FileDiff("", d)] && IsBlank(SplitFiles(d)[0].path)
  {
    ChunksOfControlPath();
    ChunkFileOfControlPath();
    assert ChunkFile("") == None;
    SplitFilesOfTwoChunks("diff --git a/x b/\U{1}", "", "a/x b/\U{1}");
  }

  /** One chunk's file with the blank test made after trimming, so that no
      file has a blank path. */
  function ChunkFileChecked(chunk: string): (r: Option<FileDiff>)
    ensures r.Some? ==> !IsBlank(r.value.path) && Trimmed(r.value.path)
  {
    if IsBlank(chunk) then None
    else
      var path := StripSourcePath(Header(chunk));
      TrimIsTrimmed(path);
      if IsBlank(Trim(path)) then None
      else Some(FileDiff(Trim(path), Marker + chunk))
  }

  /** `splitByFile` with the blank test made after trimming. */
  function SplitFilesChecked(diff: string): seq<FileDiff>
  {
    FilterMap(ChunkFileChecked, Chunks(diff))
  }

  /** The files whose path is not blank, in order. */
  function NonBlankPaths(fs: seq<FileDiff>): seq<FileDiff>
  {
    if fs == [] then []
    else
      var last := fs[|fs| - 1];
      NonBlankPaths(fs[..|fs| - 1]) + (if IsBlank(last.path) then [] else [last])
  }

  lemma {:induction false} NonBlankPathsAreNotBlank(fs: seq<FileDiff>)
    ensures forall i :: 0 <= i < |NonBlankPaths(fs)| ==> !IsBlank(NonBlankPaths(fs)[i].path)
  {
    if fs != [] {
      NonBlankPathsAreNotBlank(fs[..|fs| - 1]);
    }
  }

  /** Dropping blank paths from a concatenation drops them from each part. */
  lemma {:induction false} NonBlankPathsAppend(a: seq<FileDiff>, b: seq<FileDiff>)
    ensures NonBlankPaths(a + b) == NonBlankPaths(a) + NonBlankPaths(b)
    decreases |b|
  {
    if b == [] {
      assert a + b == a;
    } else {
      NonBlankPathsAppend(a, b[..|b| - 1]);
      assert (a + b)[..|a + b| - 1] == a + b[..|b| - 1] && (a + b)[|a + b| - 1] == b[|b| - 1];
    }
  }

  /** A file survives the blank-path drop exactly when its path is not
      blank. */
  lemma {:induction false} NonBlankPathsMembership(fs: seq<FileDiff>, f: FileDiff)
    ensures f in NonBlankPaths(fs) <==> f in fs && !IsBlank(f.path)
  {
    if fs != [] {
      var init := fs[..|fs| - 1];
      NonBlankPathsMembership(init, f);
      assert fs == init + [fs[|fs| - 1]];
    }
  }

  /** The checked chunk gives the as-written result, except that a file
      whose trimmed path is blank is dropped. */
  lemma ChunkFileCheckedAgrees(chunk: string)
    ensures ChunkFileChecked(chunk)
         == if ChunkFile(chunk).Some? && !IsBlank(ChunkFile(chunk).value.path)
            then ChunkFile(chunk) else None
  {
    if !IsBlank(chunk) {
      var path := StripSourcePath(Header(chunk));
      if IsBlank(path) {
        TrimOfBlank(path);
      }
    }
  }

  /** Dropping the blank paths from what `f` gives is what `g` gives. */
  lemma {:induction false} FilterMapNonBlank<A>(
    f: A -> Option<FileDiff>, g: A -> Option<FileDiff>, xs: seq<A>)
    requires forall x :: g(x) == if f(x).Some? && !IsBlank(f(x).value.path) then f(x) else None
    ensures FilterMap(g, xs) == NonBlankPaths(FilterMap(f, xs))
  {
    if xs != [] {
      var init := xs[..|xs| - 1];
      var x := xs[|xs| - 1];
      FilterMapNonBlank(f, g, init);
      var fs := FilterMap(f, xs);
      assert xs[..|xs| - 1] == init;
      assert FilterMap(g, xs) == FilterMap(g, init) + OptionToSeq(g(x));
      if f(x).Some? {
        assert fs == FilterMap(f, init) + [f(x).value];
        assert fs[..|fs| - 1] == FilterMap(f, init) && fs[|fs| - 1] == f(x).value;
      } else {
        assert fs == FilterMap(f, init);
      }
    }
  }

  /** The corrected split is the as-written split without the files whose
      path is blank. */
  lemma CheckedDropsBlankPaths(diff: string)
    ensures SplitFilesChecked(diff) == NonBlankPaths(SplitFiles(diff))
  {
    forall c: string
      ensures ChunkFileChecked(c)
           == if ChunkFile(c).Some? && !IsBlank(ChunkFile(c).value.path)
              then ChunkFile(c) else None
    {
      ChunkFileCheckedAgrees(c);
    }
    FilterMapNonBlank(ChunkFile, ChunkFileChecked, Chunks(diff));
  }

  /** The corrected split never yields a file with a blank path. */
  lemma SplitFilesCheckedNonBlank(diff: string)
    ensures forall i :: 0 <= i < |SplitFilesChecked(diff)| ==>
      !IsBlank(SplitFilesChecked(diff)[i].path)
  {
    CheckedDropsBlankPaths(diff);
    NonBlankPathsAreNotBlank(SplitFiles(diff));
  }

  // ---------------------------------------------------------------------
  // The chunks partition the diff.

  /** The pieces joined back with the marker between them. */
  function Rejoin(ps: seq<string>): string
    requires ps != []
  {
    if |ps| == 1 then ps[0] else ps[0] + Marker + Rejoin(ps[1..])
  }

  lemma RejoinCons(h: string, tail: seq<string>)
    requires tail != []
    ensures Rejoin([h] + tail) == h + Marker + Rejoin(tail)
  {
    assert ([h] + tail)[1..] == tail;
  }

  lemma MarkerSplit(t: string, p: nat)
    requires MarkerAt(t, p, false) || MarkerAt(t, p, true)
    ensures t == t[..p] + Marker + t[p + |Marker|..]
  {
    assert t == t[..p] + t[p..p + |Marker|] + t[p + |Marker|..];
  }

  /** Splitting loses nothing: the pieces and the markers between them
      make up the input, in order. */
  lemma {:induction false} PiecesRejoin(t: string, atInputStart: bool)
    ensures Rejoin(Pieces(t, atInputStart)) == t
    decreases |t|
  {
    var p := NextMarker(t, 0, atInputStart);
    if p < |t| {
      var rest := t[p + |Marker|..];
      assert Pieces(t, atInputStart) == [t[..p]] + Pieces(rest, false);
      PiecesRejoin(rest, false);
      RejoinCons(t[..p], Pieces(rest, false));
      MarkerSplit(t, p);
    }
  }

  /** A blank diff has no files (the reviewer then reports no changes). */
  lemma BlankDiffHasNoFiles(diff: string)
    requires IsBlank(diff)
    ensures SplitFiles(diff) == []
  {
    forall k | 0 <= k < |diff| ensures !MarkerAt(diff, k, true) {
      if k + |Marker| <= |diff| {
        assert diff[k..k + |Marker|][0] == diff[k] != Marker[0];
      }
    }
    assert NextMarker(diff, 0, true) == |diff|;
    assert Chunks(diff) == [diff];
    assert ChunkFile(diff) == None;
    FilterMapSingle(ChunkFile, diff);
  }

  /** For a header `a/X b/Y` whose X is non-empty and has no space, the
      path is Y. */
  lemma HeaderPath(x: string, y: string)
    requires x != [] && ' ' !in x
    ensures StripSourcePath("a/" + x + " b/" + y) == y
  {
    var h := "a/" + x + " b/" + y;
    var k := 2 + |x|;
    assert h[k] == ' ';
    forall j | 2 <= j < k ensures h[j] != ' ' {
      assert h[j] == x[j - 2];
    }
    assert IndexOf(h, ' ', 2) == k;
    assert h[k..k + 3] == " b/";
    assert h[k + 3..] == y;
  }

  // ---------------------------------------------------------------------
  // A diff made of well-formed units splits back into exactly those units.

  /** A file's unit of a diff: its header `a/X b/Y` and the lines after it. */
  datatype Unit = Unit(source: string, path: string, body: string)

  /** The unit's text after the marker. */
  function ChunkText(u: Unit): string {
    "a/" + u.source + " b/" + u.path + "\n" + u.body
  }

  function UnitText(u: Unit): string {
    Marker + ChunkText(u)
  }

  /** A header `a/X b/Y` on one line, X without spaces, Y trimmed and not
      blank, a body that is empty or ends its last line, and no other line
      of the unit starting with the marker. */
  predicate WellFormed(u: Unit) {
    && u.source != [] && ' ' !in u.source && '\n' !in u.source
    && '\n' !in u.path && !IsBlank(u.path) && Trimmed(u.path)
    && (u.body == [] || u.body[|u.body| - 1] == '\n')
    && forall q :: 0 < q < |UnitText(u)| ==> !MarkerAt(UnitText(u), q, false)
  }

  /** Every unit of `us` is well formed. */
  predicate AllWellFormed(us: seq<Unit>) {
    us == [] || (WellFormed(us[0]) && AllWellFormed(us[1..]))
  }

  lemma {:induction false} AllWellFormedLast(us: seq<Unit>)
    requires us != [] && AllWellFormed(us)
    ensures WellFormed(us[|us| - 1])
    decreases |us|
  {
    if |us| > 1 {
      AllWellFormedLast(us[1..]);
      assert us[1..][|us| - 2] == us[|us| - 1];
    }
  }

  function Assemble(us: seq<Unit>): string {
    if us == [] then [] else UnitText(us[0]) + Assemble(us[1..])
  }

  function Tails(us: seq<Unit>): (r: seq<string>)
    ensures |r| == |us|
  {
    if us == [] then [] else [ChunkText(us[0])] + Tails(us[1..])
  }

  lemma {:induction false} TailsLast(us: seq<Unit>)
    requires us != []
    ensures Tails(us)[|us| - 1] == ChunkText(us[|us| - 1])
  {
    if |us| > 1 {
      TailsLast(us[1..]);
      assert us[1..][|us| - 2] == us[|us| - 1];
    }
  }

  lemma ChunkTextEndsLine(u: Unit)
    requires WellFormed(u)
    ensures |ChunkText(u)| > 4 && ChunkText(u)[|ChunkText(u)| - 1] == '\n'
  {
    if u.body != [] {
      assert ChunkText(u)[|ChunkText(u)| - 1] == u.body[|u.body| - 1];
    }
  }

  /** No line inside a well-formed unit's text starts with the marker,
      whatever follows the unit. */
  lemma NoMarkerInsideChunk(u: Unit, rest: string, k: nat)
    requires WellFormed(u)
    requires k < |ChunkText(u)|
    ensures !MarkerAt(ChunkText(u) + rest, k, false)
  {
    var c := ChunkText(u);
    var w := UnitText(u);
    var t := c + rest;
    var n := |c|;
    ChunkTextEndsLine(u);
    if 0 < k && k + |Marker| <= n {
      assert t[k..k + |Marker|] == w[k + |Marker|..k + 2 * |Marker|];
      assert t[k - 1] == w[k + |Marker| - 1];
      assert !MarkerAt(w, k + |Marker|, false);
    } else if 0 < k && k + |Marker| <= |t| {
      assert t[k..k + |Marker|][n - 1 - k] == t[n - 1] == '\n';
      assert Marker[n - 1 - k] != '\n';
    }
  }

  /** Inside a well-formed unit followed by another unit (or by nothing),
      the next marker is the one that starts the following unit. */
  lemma NextMarkerAfterUnit(u: Unit, rest: string)
    requires WellFormed(u)
    requires rest == [] || StartsWithMarker(rest)
    ensures NextMarker(ChunkText(u) + rest, 0, false) == |ChunkText(u)|
  {
    var c := ChunkText(u);
    var t := c + rest;
    forall k | 0 <= k < |c| ensures !MarkerAt(t, k, false) {
      NoMarkerInsideChunk(u, rest, k);
    }
    if rest != [] {
      ChunkTextEndsLine(u);
      assert t[|c|..|c| + |Marker|] == rest[..|Marker|];
      assert MarkerAt(t, |c|, false);
    }
  }

  /** A well-formed unit followed by nothing is a single piece. */
  lemma PiecesOfLastUnit(u: Unit)
    requires WellFormed(u)
    ensures Pieces(ChunkText(u), false) == [ChunkText(u)]
  {
    NextMarkerAfterUnit(u, []);
    assert ChunkText(u) + [] == ChunkText(u);
  }

  /** A well-formed unit followed by a marker is the first piece, and the
      text after that marker is split on. */
  lemma PiecesOfUnitThen(u: Unit, rest: string)
    requires WellFormed(u)
    ensures Pieces(ChunkText(u) + Marker + rest, false)
         == [ChunkText(u)] + Pieces(rest, false)
  {
    var c := ChunkText(u);
    var t := c + Marker + rest;
    assert t == c + (Marker + rest);
    assert StartsWithMarker(Marker + rest) by {
      assert (Marker + rest)[..|Marker|] == Marker;
    }
    NextMarkerAfterUnit(u, Marker + rest);
    assert t[..|c|] == c;
    assert t[|c| + |Marker|..] == rest;
  }

  /** After the first marker, a diff of well-formed units splits into the
      units' texts after their markers. */
  lemma {:induction false} PiecesOfUnits(us: seq<Unit>)
    requires us != [] && AllWellFormed(us)
    ensures Pieces(ChunkText(us[0]) + Assemble(us[1..]), false) == Tails(us)
    decreases |us|
  {
    var c := ChunkText(us[0]);
    if |us| == 1 {
      assert Assemble(us[1..]) == [];
      assert c + [] == c;
      PiecesOfLastUnit(us[0]);
    } else {
      var rest := ChunkText(us[1]) + Assemble(us[2..]);
      assert us[1..][0] == us[1] && us[1..][1..] == us[2..];
      assert Assemble(us[1..]) == Marker + rest;
      assert c + Assemble(us[1..]) == c + Marker + rest;
      PiecesOfUnitThen(us[0], rest);
      PiecesOfUnits(us[1..]);
    }
  }

  /** Each unit's `b/` path and whole text, in order. */
  function ExpectedFiles(us: seq<Unit>): seq<FileDiff> {
    if us == [] then [] else [FileDiff(us[0].path, UnitText(us[0]))] + ExpectedFiles(us[1..])
  }

  /** A well-formed unit's chunk yields exactly that unit's file. */
  lemma ChunkFileOfUnit(u: Unit)
    requires WellFormed(u)
    ensures ChunkFile(ChunkText(u)) == Some(FileDiff(u.path, UnitText(u)))
  {
    var c := ChunkText(u);
    assert c[0] == 'a' && !IsWhitespace(c[0]);
    var nl := 2 + |u.source| + 3 + |u.path|;
    assert c[nl] == '\n';
    forall k | 0 <= k < nl ensures c[k] != '\n' {
      if 2 <= k < 2 + |u.source| {
        assert c[k] == u.source[k - 2];
      } else if 2 + |u.source| + 3 <= k {
        assert c[k] == u.path[k - 5 - |u.source|];
      }
    }
    assert IndexOf(c, '\n', 0) == nl;
    assert Header(c) == "a/" + u.source + " b/" + u.path;
    HeaderPath(u.source, u.path);
    TrimOfTrimmed(u.path);
  }

  lemma {:induction false} FilesOfTails(us: seq<Unit>)
    requires AllWellFormed(us)
    ensures FilesOf(Tails(us)) == ExpectedFiles(us)
    decreases |us|
  {
    if us != [] {
      var head := FileDiff(us[0].path, UnitText(us[0]));
      var c := ChunkText(us[0]);
      assert FilesOf([c]) == [head] by {
        FilterMapSingle(ChunkFile, c);
        ChunkFileOfUnit(us[0]);
      }
      FilterMapAppend(ChunkFile, [c], Tails(us[1..]));
      FilesOfTails(us[1..]);
      calc {
        FilesOf(Tails(us));
        { assert Tails(us) == [c] + Tails(us[1..]); }
        FilesOf([c] + Tails(us[1..]));
        [head] + ExpectedFiles(us[1..]);
        ExpectedFiles(us);
      }
    }
  }

  /** A diff that starts with the marker has an empty first piece. */
  lemma PiecesAfterLeadingMarker(t: string)
    ensures Pieces(Marker + t, true) == [""] + Pieces(t, false)
  {
    var d := Marker + t;
    assert NextMarker(d, 0, true) == 0 by {
      assert d[..|Marker|] == Marker;
      assert MarkerAt(d, 0, true);
    }
    assert d[..0] == "" && d[|Marker|..] == t;
  }

  /** With at least one match and a non-empty last piece, `split` removes
      nothing, and the leading empty chunk yields no file. */
  lemma SplitOfPieces(d: string, us: seq<Unit>)
    requires us != []
    requires Pieces(d, true) == [""] + Tails(us)
    requires Tails(us)[|us| - 1] != ""
    requires FilesOf(Tails(us)) == ExpectedFiles(us)
    ensures SplitFiles(d) == ExpectedFiles(us)
  {
    var ps := [""] + Tails(us);
    assert Chunks(d) == ps;
    FilterMapAppend(ChunkFile, [""], Tails(us));
    FilterMapSingle(ChunkFile, "");
  }

  lemma AssembleCons(us: seq<Unit>)
    requires us != []
    ensures Assemble(us) == Marker + (ChunkText(us[0]) + Assemble(us[1..]))
  {
  }

  lemma PiecesOfAssembled(us: seq<Unit>)
    requires us != [] && AllWellFormed(us)
    ensures Pieces(Assemble(us), true) == [""] + Tails(us)
  {
    var t := ChunkText(us[0]) + Assemble(us[1..]);
    calc {
      Pieces(Assemble(us), true);
      { AssembleCons(us); }
      Pieces(Marker + t, true);
      { PiecesAfterLeadingMarker(t); }
      [""] + Pieces(t, false);
      { PiecesOfUnits(us); }
      [""] + Tails(us);
    }
  }

  lemma LastTailNotEmpty(us: seq<Unit>)
    requires us != [] && AllWellFormed(us)
    ensures Tails(us)[|us| - 1] != ""
  {
    TailsLast(us);
    AllWellFormedLast(us);
    ChunkTextEndsLine(us[|us| - 1]);
  }

  lemma SplitAssembledNonEmpty(us: seq<Unit>)
    requires us != [] && AllWellFormed(us)
    ensures SplitFiles(Assemble(us)) == ExpectedFiles(us)
  {
    PiecesOfAssembled(us);
    LastTailNotEmpty(us);
    FilesOfTails(us);
    SplitOfPieces(Assemble(us), us);
  }

  /** Splitting a diff of N well-formed units gives exactly N files: each
      unit's `b/` path and its whole text, marker included, in order. */
  lemma SplitAssembled(us: seq<Unit>)
    requires AllWellFormed(us)
    ensures SplitFiles(Assemble(us)) == ExpectedFiles(us)
  {
    if us == [] {
      BlankDiffHasNoFiles(Assemble(us));
    } else {
      SplitAssembledNonEmpty(us);
    }
  }
}
