/** Case folding on ASCII. */
module AsciiCase {
  function Lower(c: char): char {
    if 'A' <= c <= 'Z' then (c as int + 32) as char else c
  }

  /** strings.EqualFold on ASCII. */
  predicate EqualFold(a: string, b: string) {
    |a| == |b| && forall i :: 0 <= i < |a| ==> Lower(a[i]) == Lower(b[i])
  }

  /** Two letters of either case, or one and the same character. */
  predicate SameLetter(a: char, b: char) {
    || a == b
    || ('A' <= a <= 'Z' && b as int == a as int + 'a' as int - 'A' as int)
    || ('A' <= b <= 'Z' && a as int == b as int + 'a' as int - 'A' as int)
  }

  predicate SameText(a: string, b: string) {
    |a| == |b| && forall i :: 0 <= i < |a| ==> SameLetter(a[i], b[i])
  }

  /** Texts fold alike if they differ in the case of letters only. */
  lemma TextsFold(a: string, b: string)
    ensures EqualFold(a, b) <==> SameText(a, b)
  {
    if |a| == |b| {
      forall i | 0 <= i < |a| ensures Lower(a[i]) == Lower(b[i]) <==> SameLetter(a[i], b[i]) {
      }
    }
  }
}
