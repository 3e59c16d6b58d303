/**
 * The few operations of Java's `String`, `Character`, `Integer` and `Long`
 * that the reviewer relies on, stated over `string` (a sequence of `char`).
 */
module JavaText {

  /** `Character.isWhitespace`: the space separators other than the no-break
      spaces, the line and paragraph separators, and the ASCII controls
      TAB, LF, VT, FF, CR and FS, GS, RS, US. */
  predicate IsWhitespace(c: char) {
    || c == ' '
    || ('\t' <= c <= '\r')
    || ('\U{1C}' <= c <= '\U{1F}')
    || c == '\U{1680}'
    || ('\U{2000}' <= c <= '\U{2006}')
    || ('\U{2008}' <= c <= '\U{200A}')
    || c == '\U{2028}' || c == '\U{2029}'
    || c == '\U{205F}' || c == '\U{3000}'
  }

  /** The line terminators of `java.util.regex`: under the MULTILINE flag
      `^` matches after each of them. */
  predicate IsLineTerminator(c: char) {
    c == '\n' || c == '\r' || c == '\U{85}' || c == '\U{2028}' || c == '\U{2029}'
  }

  /** `String.isBlank`: empty, or made only of whitespace. */
  predicate IsBlank(s: string) {
    forall i :: 0 <= i < |s| ==> IsWhitespace(s[i])
  }

  /** `String.trim` removes every character up to and including U+0020. */
  predicate Trimmed(s: string) {
    s == [] || (s[0] > ' ' && s[|s| - 1] > ' ')
  }

  /** The index of the first character after `st` that `trim` keeps, or |s|. */
  function TrimLow(s: string, st: nat): (lo: nat)
    requires st <= |s|
    ensures st <= lo <= |s|
    ensures lo < |s| ==> s[lo] > ' '
    ensures forall k :: st <= k < lo ==> s[k] <= ' '
    decreases |s| - st
  {
    if st < |s| && s[st] <= ' ' then TrimLow(s, st + 1) else st
  }

  /** One past the last character in `s[lo..len]` that `trim` keeps, or lo. */
  function TrimHigh(s: string, lo: nat, len: nat): (hi: nat)
    requires lo <= len <= |s|
    ensures lo <= hi <= len
    ensures hi > lo ==> s[hi - 1] > ' '
    ensures forall k :: hi <= k < len ==> s[k] <= ' '
    decreases len
  {
    if lo < len && s[len - 1] <= ' ' then TrimHigh(s, lo, len - 1) else len
  }

  /** `String.trim`: the slice between the first and the last character
      above U+0020. */
  function Trim(s: string): string {
    var lo := TrimLow(s, 0);
    s[lo..TrimHigh(s, lo, |s|)]
  }

  /** `trim` leaves no character up to U+0020 at either end. */
  lemma TrimIsTrimmed(s: string)
    ensures Trimmed(Trim(s))
  {
    var lo := TrimLow(s, 0);
    var hi := TrimHigh(s, lo, |s|);
    if lo < hi {
      assert Trim(s)[0] == s[lo];
      assert Trim(s)[hi - lo - 1] == s[hi - 1];
    }
  }

  /** `trim` changes nothing in a string that is already trimmed. */
  lemma TrimOfTrimmed(s: string)
    requires Trimmed(s)
    ensures Trim(s) == s
  {
  }

  /** A blank string stays blank when trimmed. */
  lemma TrimOfBlank(s: string)
    requires IsBlank(s)
    ensures IsBlank(Trim(s))
  {
    var lo := TrimLow(s, 0);
    forall k | 0 <= k < |Trim(s)| ensures IsWhitespace(Trim(s)[k]) {
      assert Trim(s)[k] == s[lo + k];
    }
  }

  /** `String.compareTo(b) < 0`: the first differing char decides, and a
      proper prefix comes first. */
  predicate StrLess(a: string, b: string) {
    if a == [] then b != []
    else if b == [] then false
    else if a[0] != b[0] then a[0] < b[0]
    else StrLess(a[1..], b[1..])
  }

  lemma {:induction false} StrLessIrreflexive(a: string)
    ensures !StrLess(a, a)
  {
    if a != [] {
      StrLessIrreflexive(a[1..]);
    }
  }

  lemma {:induction false} StrLessTransitive(a: string, b: string, c: string)
    requires StrLess(a, b) && StrLess(b, c)
    ensures StrLess(a, c)
  {
    if a != [] && b != [] && c != [] && a[0] == b[0] && b[0] == c[0] {
      StrLessTransitive(a[1..], b[1..], c[1..]);
    }
  }

  lemma {:induction false} StrLessTotal(a: string, b: string)
    ensures a == b || StrLess(a, b) || StrLess(b, a)
  {
    if a != [] && b != [] && a[0] == b[0] {
      StrLessTotal(a[1..], b[1..]);
      if a[1..] == b[1..] {
        assert a == [a[0]] + a[1..] && b == [b[0]] + b[1..];
      }
    }
  }

  lemma {:induction false} StrLessAsymmetric(a: string, b: string)
    requires StrLess(a, b)
    ensures !StrLess(b, a)
  {
    if a != [] && b != [] && a[0] == b[0] {
      StrLessAsymmetric(a[1..], b[1..]);
    }
  }

  function Digit(d: nat): char
    requires d < 10
  {
    "0123456789"[d]
  }

  /** `Long.toString` of a non-negative value. */
  function NatToString(n: nat): string
  {
    if n < 10 then [Digit(n)] else NatToString(n / 10) + [Digit(n % 10)]
  }

  /** `Integer.toString`. */
  function IntToString(i: int): string
  {
    if i < 0 then "-" + NatToString(-i) else NatToString(i)
  }
}
