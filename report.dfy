/**
 * The Markdown report: a fixed message when there is nothing to report;
 * otherwise a heading, a count of findings per severity in ascending
 * severity order, a banner when a finding is CRITICAL, one entry per
 * finding in (file, line) order, and a closing disclaimer.
 */
module ReportRenderer {
  import opened JavaText
  import opened Records
  import opened FindingOrder

  const NoIssues: string := "### \U{1F916} Gemini Review\n\n\U{2705} No issues found in changed lines."
  const Heading: string := "### AI Review (Gemini)\n\n"
  const SummaryLabel: string := "**Summary:** "
  const Banner: string := "> SEVERITY: CRITICAL\n\n"
  const Disclaimer: string := "\n> _Automated review. Please verify before applying suggestions._\n"

  // ---------------------------------------------------------------------
  // escape: a title on one line, without surrounding blanks

  /** `String.replace("\n", " ")`. */
  function ReplaceNewlines(s: string): (r: string)
    ensures |r| == |s|
    ensures forall i :: 0 <= i < |s| ==> r[i] == (if s[i] == '\n' then ' ' else s[i])
  {
    if s == [] then [] else [if s[0] == '\n' then ' ' else s[0]] + ReplaceNewlines(s[1..])
  }

  function Escape(s: string): string {
    Trim(ReplaceNewlines(s))
  }

  lemma ReplaceNewlinesOfOneLine(s: string)
    requires '\n' !in s
    ensures ReplaceNewlines(s) == s
  {
  }

  /** An escaped title has no line feed and no character up to U+0020 at
      either end, and escaping it again changes nothing. */
  lemma EscapeSpec(s: string)
    ensures '\n' !in Escape(s)
    ensures Trimmed(Escape(s))
    ensures Escape(Escape(s)) == Escape(s)
  {
    var r := ReplaceNewlines(s);
    var lo := TrimLow(r, 0);
    var e := Escape(s);
    assert e == r[lo..TrimHigh(r, lo, |r|)];
    forall k | 0 <= k < |e| ensures e[k] != '\n' {
      assert e[k] == r[lo + k];
    }
    TrimIsTrimmed(r);
    ReplaceNewlinesOfOneLine(e);
    TrimOfTrimmed(e);
  }

  // ---------------------------------------------------------------------
  // the CRITICAL banner

  /** `"CRITICAL".equalsIgnoreCase(severity)`, character by character: a
      character matches when it is the letter in either case or, for `I`,
      the dotless small i or the dotted capital I, which Java's case mapping
      also takes to `I` or `i`. */
  predicate IsCritical(severity: string) {
    |severity| == 8 &&
    forall i :: 0 <= i < 8 ==>
      || severity[i] == "CRITICAL"[i]
      || severity[i] == "critical"[i]
      || ("CRITICAL"[i] == 'I' && (severity[i] == '\U{130}' || severity[i] == '\U{131}'))
  }

  predicate AnyCritical(list: seq<Finding>) {
    exists i :: 0 <= i < |list| && IsCritical(list[i].severity)
  }

  // ---------------------------------------------------------------------
  // the severity tally, a TreeMap kept as an ascending association list

  datatype Entry = Entry(key: string, count: nat)

  /** Keys in strictly ascending `compareTo` order, pair by pair. */
  predicate Ascending(t: seq<Entry>) {
    |t| <= 1 || (StrLess(t[0].key, t[1].key) && Ascending(t[1..]))
  }

  /** `tally.getOrDefault(k, 0L)`. */
  function Lookup(t: seq<Entry>, k: string): nat {
    if t == [] then 0 else if t[0].key == k then t[0].count else Lookup(t[1..], k)
  }

  /** `tally.put(k, tally.getOrDefault(k, 0L) + 1)`. */
  function TallyPut(t: seq<Entry>, k: string): (r: seq<Entry>)
    ensures r != []
    ensures r[0].key == k || (t != [] && r[0].key == t[0].key)
  {
    if t == [] then [Entry(k, 1)]
    else if t[0].key == k then [Entry(k, t[0].count + 1)] + t[1..]
    else if StrLess(k, t[0].key) then [Entry(k, 1)] + t
    else [t[0]] + TallyPut(t[1..], k)
  }

  /** The tally after every finding of `list` has been counted. */
  function Tally(list: seq<Finding>): seq<Entry> {
    if list == [] then [] else TallyPut(Tally(list[..|list| - 1]), list[|list| - 1].severity)
  }

  /** How many findings have severity `k`. */
  function Count(list: seq<Finding>, k: string): nat {
    if list == [] then 0
    else Count(list[..|list| - 1], k) + (if list[|list| - 1].severity == k then 1 else 0)
  }

  predicate AllPositive(t: seq<Entry>) {
    forall i :: 0 <= i < |t| ==> t[i].count > 0
  }

  predicate HasKey(t: seq<Entry>, k: string) {
    exists i :: 0 <= i < |t| && t[i].key == k
  }

  predicate HasSeverity(list: seq<Finding>, k: string) {
    exists j :: 0 <= j < |list| && list[j].severity == k
  }

  function Total(t: seq<Entry>): nat {
    if t == [] then 0 else t[0].count + Total(t[1..])
  }

  lemma {:induction false} TallyPutAscending(t: seq<Entry>, k: string)
    requires Ascending(t)
    ensures Ascending(TallyPut(t, k))
  {
    if t != [] && t[0].key != k && !StrLess(k, t[0].key) {
      StrLessTotal(k, t[0].key);
      TallyPutAscending(t[1..], k);
      var r := TallyPut(t[1..], k);
      assert TallyPut(t, k) == [t[0]] + r;
      assert ([t[0]] + r)[1..] == r;
    } else if t != [] && t[0].key == k {
      assert ([Entry(k, t[0].count + 1)] + t[1..])[1..] == t[1..];
    } else if t != [] {
      assert ([Entry(k, 1)] + t)[1..] == t;
    }
  }

  /** A key below the first key of an ascending tally is not in it. */
  lemma {:induction false} LookupBelowHead(t: seq<Entry>, k: string)
    requires Ascending(t) && t != [] && StrLess(k, t[0].key)
    ensures Lookup(t, k) == 0
  {
    StrLessIrreflexive(k);
    if |t| > 1 {
      StrLessTransitive(k, t[0].key, t[1].key);
      LookupBelowHead(t[1..], k);
    }
  }

  lemma {:induction false} TallyPutLookup(t: seq<Entry>, k: string, k': string)
    requires Ascending(t)
    ensures Lookup(TallyPut(t, k), k') == Lookup(t, k') + (if k' == k then 1 else 0)
  {
    if t == [] {
    } else if t[0].key == k {
      assert TallyPut(t, k)[1..] == t[1..];
    } else if StrLess(k, t[0].key) {
      assert TallyPut(t, k)[1..] == t;
      if k' == k {
        LookupBelowHead(t, k);
      }
    } else {
      TallyPutLookup(t[1..], k, k');
      assert TallyPut(t, k)[1..] == TallyPut(t[1..], k);
    }
  }

  lemma {:induction false} TallyPutPositive(t: seq<Entry>, k: string)
    requires AllPositive(t)
    ensures AllPositive(TallyPut(t, k))
  {
    if t != [] && t[0].key != k && !StrLess(k, t[0].key) {
      TallyPutPositive(t[1..], k);
      assert TallyPut(t, k) == [t[0]] + TallyPut(t[1..], k);
    }
  }

  lemma {:induction false} TallyPutTotal(t: seq<Entry>, k: string)
    ensures Total(TallyPut(t, k)) == Total(t) + 1
  {
    if t == [] {
    } else if t[0].key == k {
      assert TallyPut(t, k)[1..] == t[1..];
    } else if StrLess(k, t[0].key) {
      assert TallyPut(t, k)[1..] == t;
    } else {
      TallyPutTotal(t[1..], k);
      assert TallyPut(t, k)[1..] == TallyPut(t[1..], k);
    }
  }

  /** The tally of `list` is ascending, has only positive counts, counts
      every finding once, and holds for each severity its number of
      findings. */
  lemma {:induction false} TallyInvariant(list: seq<Finding>)
    ensures Ascending(Tally(list)) && AllPositive(Tally(list))
    ensures Total(Tally(list)) == |list|
    ensures forall k :: Lookup(Tally(list), k) == Count(list, k)
  {
    if list != [] {
      var init, sev := list[..|list| - 1], list[|list| - 1].severity;
      TallyInvariant(init);
      assert Tally(list) == TallyPut(Tally(init), sev);
      TallyPutAscending(Tally(init), sev);
      TallyPutPositive(Tally(init), sev);
      TallyPutTotal(Tally(init), sev);
      forall k ensures Lookup(Tally(list), k) == Count(list, k) {
        TallyPutLookup(Tally(init), sev, k);
      }
    }
  }

  lemma {:induction false} AscendingAllPairs(t: seq<Entry>, i: nat, j: nat)
    requires Ascending(t) && i < j < |t|
    ensures StrLess(t[i].key, t[j].key)
    decreases j
  {
    if i > 0 {
      AscendingAllPairs(t[1..], i - 1, j - 1);
    } else if j > 1 {
      AscendingAllPairs(t[1..], 0, j - 1);
      StrLessTransitive(t[0].key, t[1].key, t[j].key);
    }
  }

  /** In a tally with positive counts a key is looked up as positive
      exactly when some entry holds it. */
  lemma {:induction false} LookupPositive(t: seq<Entry>, k: string)
    requires AllPositive(t)
    ensures Lookup(t, k) > 0 <==> HasKey(t, k)
  {
    if t != [] && t[0].key != k {
      LookupPositive(t[1..], k);
      if exists i :: 0 <= i < |t| && t[i].key == k {
        var i :| 0 <= i < |t| && t[i].key == k;
        assert t[1..][i - 1].key == k;
      }
      if exists i :: 0 <= i < |t[1..]| && t[1..][i].key == k {
        var i :| 0 <= i < |t[1..]| && t[1..][i].key == k;
        assert t[i + 1].key == k;
      }
    }
  }

  /** In an ascending tally the entry at `i` is the one a lookup finds. */
  lemma {:induction false} LookupAt(t: seq<Entry>, i: nat)
    requires Ascending(t) && i < |t|
    ensures Lookup(t, t[i].key) == t[i].count
  {
    if i > 0 {
      AscendingAllPairs(t, 0, i);
      StrLessIrreflexive(t[0].key);
      LookupAt(t[1..], i - 1);
      assert t[1..][i - 1] == t[i];
    }
  }

  lemma {:induction false} CountPositive(list: seq<Finding>, k: string)
    ensures Count(list, k) > 0 <==> HasSeverity(list, k)
  {
    if list != [] {
      var init := list[..|list| - 1];
      CountPositive(init, k);
      if exists j :: 0 <= j < |init| && init[j].severity == k {
        var j :| 0 <= j < |init| && init[j].severity == k;
        assert list[j].severity == k;
      }
      if exists j :: 0 <= j < |list| && list[j].severity == k {
        var j :| 0 <= j < |list| && list[j].severity == k;
        if j < |init| {
          assert init[j].severity == k;
        }
      }
    }
  }

  /** The summary lists each distinct severity once, in ascending key
      order, with its number of findings; the counts add up to the number
      of findings. */
  lemma TallySpec(list: seq<Finding>)
    ensures forall i, j :: 0 <= i < j < |Tally(list)| ==> StrLess(Tally(list)[i].key, Tally(list)[j].key)
    ensures forall k :: HasKey(Tally(list), k) <==> HasSeverity(list, k)
    ensures forall i :: 0 <= i < |Tally(list)| ==> Tally(list)[i].count == Count(list, Tally(list)[i].key)
    ensures Total(Tally(list)) == |list|
  {
    var t := Tally(list);
    TallyInvariant(list);
    forall i, j | 0 <= i < j < |t| ensures StrLess(t[i].key, t[j].key) {
      AscendingAllPairs(t, i, j);
    }
    forall k ensures HasKey(t, k) <==> HasSeverity(list, k) {
      LookupPositive(t, k);
      CountPositive(list, k);
    }
    forall i | 0 <= i < |t| ensures t[i].count == Count(list, t[i].key) {
      LookupAt(t, i);
    }
  }

  // ---------------------------------------------------------------------
  // the text of the report

  /** One tally entry: `key: count` and two spaces. */
  function Item(e: Entry): string {
    e.key + ": " + NatToString(e.count) + "  "
  }

  function SummaryItems(t: seq<Entry>): string {
    if t == [] then [] else SummaryItems(t[..|t| - 1]) + Item(t[|t| - 1])
  }

  function SummaryText(t: seq<Entry>): string {
    SummaryLabel + SummaryItems(t) + "\n\n"
  }

  /** `":" + line`, or nothing for a finding without a line. */
  function LineSuffix(f: Finding): string {
    if f.line.Some? then ":" + IntToString(f.line.value) else ""
  }

  /** One finding's entry; the detail and the suggestion appear only when
      they are not blank. */
  function EntryText(f: Finding): string {
    "**" + f.file + LineSuffix(f) + "** \U{2014} "
    + "`" + f.severity + "` "
    + "**" + Escape(f.title) + "**\n\n"
    + (if IsBlank(f.detail) then "" else f.detail + "\n\n")
    + (if IsBlank(f.suggestion) then "" else "_Suggestion:_\n```\n" + f.suggestion + "\n```\n\n")
  }

  function Entries(s: seq<Finding>): string {
    if s == [] then [] else Entries(s[..|s| - 1]) + EntryText(s[|s| - 1])
  }

  /** A non-empty report from its tally, whether the banner is due, and
      the text of its entries. */
  function Assemble(tally: seq<Entry>, critical: bool, entries: string): string {
    Heading + SummaryText(tally) + (if critical then Banner else "") + entries + Disclaimer
  }

  /** The whole report. */
  function Report(list: seq<Finding>): string {
    if list == [] then NoIssues
    else Assemble(Tally(list), AnyCritical(list), Entries(SortFindings(list)))
  }

  /** Where the four parts of a concatenation sit in it. */
  lemma FourParts(a: string, b: string, c: string, d: string)
    requires |c| >= 2
    ensures a <= a + b + c + d
    ensures (a + b + c + d)[|a|..|a| + |b|] == b
    ensures (a + b + c + d)[|a| + |b|..|a| + |b| + 2] == c[..2]
    ensures (a + b + c + d)[|a| + |b| + |c|..] == d
  {
    var r := a + b + c + d;
    assert r[|a|..|a| + |b|] == b;
    assert r[|a| + |b|..|a| + |b| + 2] == c[..2];
  }

  lemma EntryTextStartsWithBold(f: Finding)
    ensures |EntryText(f)| >= 2 && EntryText(f)[..2] == "**"
  {
    var head := "**" + f.file;
    assert EntryText(f)[..2] == head[..2];
  }

  /** Every entry opens with `**`. */
  lemma {:induction false} EntriesStartWithBold(s: seq<Finding>)
    requires s != []
    ensures |Entries(s)| >= 2 && Entries(s)[..2] == "**"
  {
    var init, last := s[..|s| - 1], s[|s| - 1];
    assert Entries(s) == Entries(init) + EntryText(last);
    if init != [] {
      EntriesStartWithBold(init);
      assert Entries(s)[..2] == Entries(init)[..2];
    } else {
      EntryTextStartsWithBold(last);
      assert Entries(s) == EntryText(last);
    }
  }

  lemma AssembleFraming(t: seq<Entry>, critical: bool, e: string)
    requires |e| >= 2
    ensures Heading <= Assemble(t, critical, e)
    ensures |Disclaimer| <= |Assemble(t, critical, e)|
    ensures Assemble(t, critical, e)[|Assemble(t, critical, e)| - |Disclaimer|..] == Disclaimer
  {
    var h, b := Heading + SummaryText(t), (if critical then Banner else "");
    FourParts(h, b, e, Disclaimer);
    assert Heading <= h;
  }

  lemma AssembleBanner(t: seq<Entry>, critical: bool, e: string, p: nat)
    requires |e| >= 2 && e[..2] == "**"
    requires p == |Heading| + |SummaryText(t)|
    ensures p + 2 <= |Assemble(t, critical, e)|
    ensures critical ==> Assemble(t, critical, e)[p..p + |Banner|] == Banner
    ensures !critical ==> Assemble(t, critical, e)[p..p + 2] == "**"
    ensures Assemble(t, critical, e)[p] == '>' <==> critical
  {
    var h, b := Heading + SummaryText(t), (if critical then Banner else "");
    FourParts(h, b, e, Disclaimer);
    var r := Assemble(t, critical, e);
    if critical {
      assert r[p] == r[p..p + |Banner|][0];
    } else {
      assert r[p] == r[p..p + 2][0];
    }
  }

  /** A non-empty list has at least one entry. */
  lemma ReportEntries(list: seq<Finding>)
    requires list != []
    ensures |Entries(SortFindings(list))| >= 2 && Entries(SortFindings(list))[..2] == "**"
  {
    SortFindingsPermutes(list);
    assert |multiset(SortFindings(list))| == |list|;
    EntriesStartWithBold(SortFindings(list));
  }

  /** An empty list gives the fixed message; any other list gives a report
      that opens with the heading and closes with the disclaimer. */
  lemma ReportFraming(list: seq<Finding>)
    ensures list == [] ==> Report(list) == NoIssues
    ensures list != [] ==> Heading <= Report(list)
    ensures list != [] ==>
      |Disclaimer| <= |Report(list)| && Report(list)[|Report(list)| - |Disclaimer|..] == Disclaimer
  {
    if list != [] {
      ReportEntries(list);
      AssembleFraming(Tally(list), AnyCritical(list), Entries(SortFindings(list)));
    }
  }

  /** Right after the summary comes the CRITICAL banner when some severity
      is CRITICAL in any case, and otherwise the first entry, which opens
      with `**`: the character there tells the two apart. */
  lemma BannerIffCritical(list: seq<Finding>, p: nat)
    requires list != []
    requires p == |Heading| + |SummaryText(Tally(list))|
    ensures p + 2 <= |Report(list)|
    ensures AnyCritical(list) ==> Report(list)[p..p + |Banner|] == Banner
    ensures !AnyCritical(list) ==> Report(list)[p..p + 2] == "**"
    ensures Report(list)[p] == '>' <==> AnyCritical(list)
  {
    ReportEntries(list);
    AssembleBanner(Tally(list), AnyCritical(list), Entries(SortFindings(list)), p);
  }

  lemma Reassociate(a: string, b: string, c: string)
    ensures a + b + c == a + (b + c)
  {
  }

  /** The first loop of `renderMarkdown`: every finding's severity is
      counted into the tally in list order. */
  method CountSeverities(list: seq<Finding>) returns (tally: seq<Entry>)
    ensures tally == Tally(list)
  {
    tally := [];
    for i := 0 to |list|
      invariant tally == Tally(list[..i])
    {
      assert list[..i + 1][..i] == list[..i];
      tally := TallyPut(tally, list[i].severity);
    }
    assert list[..|list|] == list;
  }

  /** The walk over the tally in key order, appending one item per entry. */
  method AppendSummary(sb: string, tally: seq<Entry>) returns (out: string)
    ensures out == sb + SummaryItems(tally)
  {
    out := sb;
    for j := 0 to |tally|
      invariant out == sb + SummaryItems(tally[..j])
    {
      assert tally[..j + 1][..j] == tally[..j];
      Reassociate(sb, SummaryItems(tally[..j]), Item(tally[j]));
      out := out + Item(tally[j]);
    }
    assert tally[..|tally|] == tally;
  }

  lemma EntriesStep(sb: string, s: seq<Finding>, j: nat)
    requires j < |s|
    ensures sb + Entries(s[..j]) + EntryText(s[j]) == sb + Entries(s[..j + 1])
  {
    assert s[..j + 1][..j] == s[..j];
    Reassociate(sb, Entries(s[..j]), EntryText(s[j]));
  }

  /** The walk over the sorted findings, appending one entry per finding. */
  method AppendEntries(sb: string, sorted: seq<Finding>) returns (out: string)
    ensures out == sb + Entries(sorted)
  {
    out := sb;
    for j := 0 to |sorted|
      invariant out == sb + Entries(sorted[..j])
    {
      EntriesStep(sb, sorted, j);
      out := out + EntryText(sorted[j]);
    }
    assert sorted[..|sorted|] == sorted;
  }

  /** `renderMarkdown`. */
  method RenderMarkdown(list: seq<Finding>) returns (md: string)
    ensures md == Report(list)
  {
    if |list| == 0 {
      return NoIssues;
    }
    var tally := CountSeverities(list);
    var sb := AppendSummary(Heading + SummaryLabel, tally);
    sb := sb + "\n\n";
    assert sb == Heading + SummaryText(tally);
    var banner := if AnyCritical(list) then Banner else "";
    sb := sb + banner;
    sb := AppendEntries(sb, SortFindings(list));
    md := sb + Disclaimer;
  }
}
