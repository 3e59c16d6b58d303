/**
 * The retry protocol of `callGemini` and the way it gathers the model's
 * text into a single finding. The HTTP exchange is replaced by the
 * responses the three attempts would receive, each a status code and the
 * part texts of each candidate, already decoded.
 */
module ReviewClient {
  import opened JavaText
  import opened Records

  const MaxAttempts := 3

  /** One attempt's answer: the status code and, per candidate, the texts
      of its content parts. */
  datatype Response = Response(code: int, candidates: seq<seq<string>>)

  /** What the call returns, or the status code of the error it throws. */
  datatype Outcome = Findings(findings: seq<Finding>) | Failed(code: int)

  /** Too many requests or a server error: wait and try again. */
  predicate IsTransient(code: int) {
    code == 429 || code >= 500
  }

  /** OkHttp's `isSuccessful`. */
  predicate IsSuccessful(code: int) {
    200 <= code < 300
  }

  /** What one part text adds to the buffer. */
  function Piece(text: string): string {
    if IsBlank(text) then "" else text + "\n\n"
  }

  /** The non-blank texts of one candidate, each followed by a blank line. */
  function JoinParts(parts: seq<string>): string {
    if parts == [] then "" else JoinParts(parts[..|parts| - 1]) + Piece(parts[|parts| - 1])
  }

  /** The non-blank texts of all candidates, in order. */
  function Aggregate(candidates: seq<seq<string>>): string {
    if candidates == [] then ""
    else Aggregate(candidates[..|candidates| - 1]) + JoinParts(candidates[|candidates| - 1])
  }

  /** The single finding that carries the model's whole text. */
  function RawFinding(text: string): Finding
  {
    Finding("RAW_OUTPUT", None, "INFO", "Gemini raw response",
      "Gemini did not return structured JSON. See suggestion for raw text.", text)
  }

  /** What an attempt that is not retried returns: an error for a status
      that is not 2xx, otherwise no finding for an empty text and one raw
      finding for any other. */
  function Settle(r: Response): Outcome {
    if !IsSuccessful(r.code) then Failed(r.code)
    else
      var text := Aggregate(r.candidates);
      if text == "" then Findings([]) else Findings([RawFinding(text)])
  }

  /** The first of the three attempts whose status is not transient, or 3. */
  function FirstSettled(responses: seq<Response>, from: nat): (k: nat)
    requires from <= MaxAttempts <= |responses|
    ensures from <= k <= MaxAttempts
    ensures k < MaxAttempts ==> !IsTransient(responses[k].code)
    ensures forall j :: from <= j < k ==> IsTransient(responses[j].code)
    decreases MaxAttempts - from
  {
    if from == MaxAttempts || !IsTransient(responses[from].code) then from
    else FirstSettled(responses, from + 1)
  }

  /** The waits before the first `n` retries: 600 ms times the attempt
      number. */
  function Backoff(n: nat): seq<int>
  {
    seq(n, j => 600 * (j + 1))
  }

  /** The inner loop: appends the non-blank texts of one candidate's
      parts to the buffer. */
  method AppendParts(buffer: string, parts: seq<string>) returns (text: string)
    ensures text == buffer + JoinParts(parts)
  {
    text := buffer;
    for p := 0 to |parts|
      invariant text == buffer + JoinParts(parts[..p])
    {
      var txt := parts[p];
      assert JoinParts(parts[..p + 1]) == JoinParts(parts[..p]) + Piece(txt) by {
        assert parts[..p + 1][..p] == parts[..p];
      }
      if !IsBlank(txt) {
        text := text + txt + "\n\n";
      }
    }
    assert parts[..|parts|] == parts;
  }

  /** Gathers the non-blank part texts of every candidate. */
  method CollectText(candidates: seq<seq<string>>) returns (text: string)
    ensures text == Aggregate(candidates)
  {
    text := "";
    for c := 0 to |candidates|
      invariant text == Aggregate(candidates[..c])
    {
      assert candidates[..c + 1][..c] == candidates[..c];
      text := AppendParts(text, candidates[c]);
    }
    assert candidates[..|candidates|] == candidates;
  }

  /** `callGemini`: up to three attempts. A transient status records a wait
      and moves on; the first other status settles the call; when every
      attempt was transient the call returns no finding. */
  method CallGemini(responses: seq<Response>) returns (outcome: Outcome, sleeps: seq<int>, attempts: nat)
    requires |responses| >= MaxAttempts
    ensures var k := FirstSettled(responses, 0);
      && attempts == (if k < MaxAttempts then k + 1 else MaxAttempts)
      && sleeps == Backoff(k)
      && |sleeps| == k && (forall j :: 0 <= j < k ==> sleeps[j] == 600 * (j + 1))
      && outcome == (if k < MaxAttempts then Settle(responses[k]) else Findings([]))
  {
    sleeps := [];
    attempts := 0;
    for i := 0 to MaxAttempts
      invariant attempts == i && sleeps == Backoff(i)
      invariant FirstSettled(responses, 0) == FirstSettled(responses, i)
    {
      var resp := responses[i];
      attempts := attempts + 1;
      if resp.code == 429 || resp.code >= 500 {
        sleeps := sleeps + [600 * (i + 1)];
        continue;
      }
      if !(200 <= resp.code < 300) {
        return Failed(resp.code), sleeps, attempts;
      }
      var text := CollectText(resp.candidates);
      if text == "" {
        return Findings([]), sleeps, attempts;
      }
      return Findings([RawFinding(text)]), sleeps, attempts;
    }
    outcome := Findings([]);
  }

  // ---------------------------------------------------------------------
  // What the call returns.

  /** The gathered text is empty exactly when every part text is blank. */
  lemma {:induction false} JoinPartsEmptyIffAllBlank(parts: seq<string>)
    ensures JoinParts(parts) == "" <==> forall j :: 0 <= j < |parts| ==> IsBlank(parts[j])
  {
    if parts != [] {
      var init := parts[..|parts| - 1];
      JoinPartsEmptyIffAllBlank(init);
      forall j | 0 <= j < |init| ensures init[j] == parts[j] {}
    }
  }

  lemma {:induction false} AggregateEmptyIffAllBlank(candidates: seq<seq<string>>)
    ensures Aggregate(candidates) == "" <==>
      forall i, j :: 0 <= i < |candidates| && 0 <= j < |candidates[i]| ==> IsBlank(candidates[i][j])
  {
    if candidates != [] {
      var init := candidates[..|candidates| - 1];
      AggregateEmptyIffAllBlank(init);
      JoinPartsEmptyIffAllBlank(candidates[|candidates| - 1]);
      forall i | 0 <= i < |init| ensures init[i] == candidates[i] {}
    }
  }

  /** A non-empty gathered text ends with the blank line that follows each
      part. */
  lemma {:induction false} AggregateEndsWithBlankLine(candidates: seq<seq<string>>)
    ensures Aggregate(candidates) != "" ==>
      |Aggregate(candidates)| >= 2 && Aggregate(candidates)[|Aggregate(candidates)| - 2..] == "\n\n"
  {
    if candidates != [] {
      var init := candidates[..|candidates| - 1];
      AggregateEndsWithBlankLine(init);
      JoinPartsEndsWithBlankLine(candidates[|candidates| - 1]);
    }
  }

  lemma {:induction false} JoinPartsEndsWithBlankLine(parts: seq<string>)
    ensures JoinParts(parts) != "" ==>
      |JoinParts(parts)| >= 2 && JoinParts(parts)[|JoinParts(parts)| - 2..] == "\n\n"
  {
    if parts != [] {
      JoinPartsEndsWithBlankLine(parts[..|parts| - 1]);
    }
  }

  /** A settled attempt gives an error exactly for a status that is not
      2xx; otherwise at most one finding, the raw one carrying the whole
      gathered text, present exactly when some part text is not blank. */
  lemma SettleOutcome(r: Response)
    ensures Settle(r).Failed? <==> !IsSuccessful(r.code)
    ensures Settle(r).Findings? ==> |Settle(r).findings| <= 1
    ensures Settle(r).Findings? && Settle(r).findings != [] ==>
      Settle(r).findings == [RawFinding(Aggregate(r.candidates))]
    ensures Settle(r).Findings? && Settle(r).findings != [] ==>
      var f := Settle(r).findings[0];
      f.file == "RAW_OUTPUT" && f.line == None && f.severity == "INFO" &&
      f.suggestion == Aggregate(r.candidates)
    ensures Settle(r).Findings? ==> (Settle(r).findings == [] <==>
      forall i, j :: 0 <= i < |r.candidates| && 0 <= j < |r.candidates[i]| ==>
        IsBlank(r.candidates[i][j]))
  {
    AggregateEmptyIffAllBlank(r.candidates);
  }
}
