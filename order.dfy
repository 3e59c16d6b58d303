/**
 * The order in which the report lists findings: by file name as
 * `String.compareTo` orders it, then by line number, a finding without a
 * line counting as `Integer.MAX_VALUE` and so coming last. The stream's
 * `sorted` is stable, so findings with the same key keep their order.
 */
module FindingOrder {
  import opened JavaText
  import opened Records

  /** The second sort key. */
  function LineKey(f: Finding): int {
    if f.line.Some? then f.line.value else IntMax
  }

  /** The comparator does not put `b` before `a`. */
  predicate Le(a: Finding, b: Finding) {
    StrLess(a.file, b.file) || (a.file == b.file && LineKey(a) <= LineKey(b))
  }

  lemma LeTransitive(a: Finding, b: Finding, c: Finding)
    requires Le(a, b) && Le(b, c)
    ensures Le(a, c)
  {
    if StrLess(a.file, b.file) && StrLess(b.file, c.file) {
      StrLessTransitive(a.file, b.file, c.file);
    }
  }

  lemma LeTotal(a: Finding, b: Finding)
    ensures Le(a, b) || Le(b, a)
  {
    StrLessTotal(a.file, b.file);
  }

  /** Each finding is not after the one that follows it. */
  predicate Sorted(s: seq<Finding>) {
    |s| <= 1 || (Le(s[0], s[1]) && Sorted(s[1..]))
  }

  /** Inserts `x` after every finding that does not sort after it, which
      keeps findings with equal keys in the order they were inserted. */
  function Insert(x: Finding, s: seq<Finding>): (r: seq<Finding>)
    ensures multiset(r) == multiset(s) + multiset{x}
    ensures |r| == |s| + 1
    ensures r[0] == x || (s != [] && r[0] == s[0])
  {
    if s == [] then [x]
    else if !Le(s[0], x) then [x] + s
    else
      assert s == [s[0]] + s[1..];
      [s[0]] + Insert(x, s[1..])
  }

  lemma {:induction false} InsertSorted(x: Finding, s: seq<Finding>)
    requires Sorted(s)
    ensures Sorted(Insert(x, s))
  {
    if s == [] {
    } else if !Le(s[0], x) {
      LeTotal(s[0], x);
      assert ([x] + s)[1..] == s;
    } else {
      InsertSorted(x, s[1..]);
      var r := Insert(x, s[1..]);
      assert Insert(x, s) == [s[0]] + r;
      assert ([s[0]] + r)[1..] == r;
      assert r[0] == x || r[0] == s[1];
    }
  }

  /** The stream's stable sort, as insertion of each finding in turn. */
  function SortFindings(list: seq<Finding>): seq<Finding>
  {
    if list == [] then [] else Insert(list[|list| - 1], SortFindings(list[..|list| - 1]))
  }

  /** The sorted findings are the input findings, each as many times. */
  lemma {:induction false} SortFindingsPermutes(list: seq<Finding>)
    ensures multiset(SortFindings(list)) == multiset(list)
  {
    if list != [] {
      var init, last := list[..|list| - 1], list[|list| - 1];
      SortFindingsPermutes(init);
      assert SortFindings(list) == Insert(last, SortFindings(init));
      assert list == init + [last];
      assert multiset(list) == multiset(init) + multiset{last};
    }
  }

  lemma {:induction false} SortFindingsSorted(list: seq<Finding>)
    ensures Sorted(SortFindings(list))
  {
    if list != [] {
      SortFindingsSorted(list[..|list| - 1]);
      InsertSorted(list[|list| - 1], SortFindings(list[..|list| - 1]));
    }
  }

  lemma {:induction false} SortedSuffix(s: seq<Finding>, i: nat)
    requires Sorted(s) && i < |s|
    ensures Sorted(s[i..])
    decreases i
  {
    if i > 0 {
      SortedSuffix(s[1..], i - 1);
      assert s[1..][i - 1..] == s[i..];
    }
  }

  /** In a sorted sequence every finding is `Le` every later one. */
  lemma {:induction false} SortedAllPairs(s: seq<Finding>, i: nat, j: nat)
    requires Sorted(s) && i < j < |s|
    ensures Le(s[i], s[j])
    decreases j - i
  {
    SortedSuffix(s, i);
    assert s[i..][1] == s[i + 1] && s[i..][0] == s[i];
    if i + 1 < j {
      SortedAllPairs(s, i + 1, j);
      LeTransitive(s[i], s[i + 1], s[j]);
    }
  }

  /** The report lists the findings in non-decreasing (file, line) order,
      as a permutation of the input. */
  lemma SortFindingsSpec(list: seq<Finding>)
    ensures multiset(SortFindings(list)) == multiset(list)
    ensures forall i, j :: 0 <= i < j < |SortFindings(list)| ==>
      Le(SortFindings(list)[i], SortFindings(list)[j])
  {
    SortFindingsPermutes(list);
    SortFindingsSorted(list);
    forall i, j | 0 <= i < j < |SortFindings(list)|
      ensures Le(SortFindings(list)[i], SortFindings(list)[j])
    {
      SortedAllPairs(SortFindings(list), i, j);
    }
  }
}
