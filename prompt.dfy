/**
 * `buildPrompt`: the fixed instructions followed by one section per file
 * of the batch, in order.
 */
module PromptBuilder {
  import opened Records
  import opened Batcher

  const SectionOpen := "\n===== FILE: "
  const SectionClose := " =====\n"

  /** One file's section: a banner line naming the path, then the content
      and a newline. */
  function Section(f: FileDiff): string {
    SectionOpen + f.path + SectionClose + f.content + "\n"
  }

  /** The sections of a batch, in order. */
  function Sections(batch: seq<FileDiff>): string {
    if batch == [] then "" else Sections(batch[..|batch| - 1]) + Section(batch[|batch| - 1])
  }

  /** The prompt for a batch; the instructions are a parameter. */
  function Prompt(preamble: string, batch: seq<FileDiff>): string {
    preamble + Sections(batch)
  }

  /** `buildPrompt`: appends to one buffer, the banner line then the
      content of each file. */
  method BuildPrompt(preamble: string, batch: seq<FileDiff>) returns (prompt: string)
    ensures prompt == Prompt(preamble, batch)
  {
    var sb := preamble;
    for i := 0 to |batch|
      invariant sb == preamble + Sections(batch[..i])
    {
      var f := batch[i];
      assert Sections(batch[..i + 1]) == Sections(batch[..i]) + Section(f) by {
        assert batch[..i + 1][..i] == batch[..i];
      }
      ghost var before := sb;
      sb := sb + SectionOpen + f.path + SectionClose;
      sb := sb + f.content + "\n";
      AppendSection(before, f);
    }
    assert batch[..|batch|] == batch;
    prompt := sb;
  }

  /** Appending a file's banner, content and newline to a buffer appends
      its section. */
  lemma AppendSection(sb: string, f: FileDiff)
    ensures sb + SectionOpen + f.path + SectionClose + f.content + "\n" == sb + Section(f)
  {
  }

  /** The sections of a concatenation are the sections of each part. */
  lemma {:induction false} SectionsAppend(a: seq<FileDiff>, b: seq<FileDiff>)
    ensures Sections(a + b) == Sections(a) + Sections(b)
    decreases |b|
  {
    if b == [] {
      assert a + b == a;
    } else {
      var b' := b[..|b| - 1];
      var x := b[|b| - 1];
      assert (a + b)[..|a + b| - 1] == a + b' && (a + b)[|a + b| - 1] == x;
      calc {
        Sections(a + b);
        Sections(a + b') + Section(x);
        { SectionsAppend(a, b'); }
        Sections(a) + Sections(b') + Section(x);
        Sections(a) + (Sections(b') + Section(x));
        Sections(a) + Sections(b);
      }
    }
  }

  /** The prompt of an empty batch is the instructions alone, and adding
      files to a batch adds their sections at the end. */
  lemma PromptAppend(preamble: string, a: seq<FileDiff>, b: seq<FileDiff>)
    ensures Prompt(preamble, []) == preamble
    ensures Prompt(preamble, a + b) == Prompt(preamble, a) + Sections(b)
  {
    SectionsAppend(a, b);
  }

  /** Each section is 43 characters shorter than the file's batching cost:
      the 64 characters counted per file cover the 21 of the banner. */
  lemma {:induction false} PromptLength(preamble: string, batch: seq<FileDiff>)
    ensures |Prompt(preamble, batch)| == |preamble| + BatchCost(batch) - 43 * |batch|
  {
    if batch != [] {
      PromptLength(preamble, batch[..|batch| - 1]);
    }
  }

  /** A batch of two or more files gives a prompt of at most the
      instructions plus the limit. */
  lemma PromptWithinLimit(preamble: string, batch: seq<FileDiff>, limit: int)
    requires |batch| >= 2 && BatchCost(batch) <= limit
    ensures |Prompt(preamble, batch)| <= |preamble| + limit - 86
  {
    PromptLength(preamble, batch);
  }
}
