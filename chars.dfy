/** ASCII character classes shared by the line normalizer and the URL builder,
    and the scanner that measures a run of characters of one class. */
module Chars {

  /** Python's whitespace (`\s` in a `str` pattern, `str.isspace`, the
      separator of `str.split()` and what `str.strip()` removes), restricted
      to ASCII: tab, line feed, vertical tab, form feed, carriage return, the
      four information separators 0x1C-0x1F, and space. */
  predicate IsSpace(c: char) {
    c == ' ' || ('\t' <= c <= '\r') || ('\U{1C}' <= c <= '\U{1F}')
  }

  /** `\d` restricted to ASCII. */
  predicate IsDigit(c: char) {
    '0' <= c <= '9'
  }

  /** A character of `\w`, the class that `\b` separates from the rest,
      restricted to ASCII: letters, digits and underscore. */
  predicate IsWordChar(c: char) {
    ('a' <= c <= 'z') || ('A' <= c <= 'Z') || IsDigit(c) || c == '_'
  }

  /** ASCII lower-casing, the comparison `re.IGNORECASE` uses for a pattern
      made of ASCII letters. */
  function ToLower(c: char): (l: char)
    ensures 'A' <= c <= 'Z' ==> 'a' <= l <= 'z' && l as int == c as int + 32
    ensures !('A' <= c <= 'Z') ==> l == c
  {
    if 'A' <= c <= 'Z' then (c as int + 32) as char else c
  }

  /** The length of the longest run of characters satisfying `p` that starts
      at position `i` of `s` (what a greedy `p*` consumes there). */
  function Span(s: string, i: nat, p: char -> bool): (n: nat)
    requires i <= |s|
    ensures i + n <= |s|
    ensures forall q :: i <= q < i + n ==> p(s[q])
    ensures i + n == |s| || !p(s[i + n])
    decreases |s| - i
  {
    if i < |s| && p(s[i]) then 1 + Span(s, i + 1, p) else 0
  }

  /** The length of the longest run of characters satisfying `p` at the end
      of `s`. */
  function TrailingSpan(s: string, p: char -> bool): (n: nat)
    ensures n <= |s|
    ensures forall q :: |s| - n <= q < |s| ==> p(s[q])
    ensures n == |s| || !p(s[|s| - n - 1])
  {
    if |s| > 0 && p(s[|s| - 1]) then 1 + TrailingSpan(s[..|s| - 1], p) else 0
  }

  /** A run is measured uniquely: any `n` with the two properties of `Span`
      is the value `Span` computes. */
  lemma {:induction false} SpanUnique(s: string, i: nat, p: char -> bool, n: nat)
    requires i + n <= |s|
    requires forall q :: i <= q < i + n ==> p(s[q])
    requires i + n == |s| || !p(s[i + n])
    ensures Span(s, i, p) == n
    decreases n
  {
    if n > 0 {
      SpanUnique(s, i + 1, p, n - 1);
    }
  }

  /** Whitespace and word characters are disjoint, so a whitespace
      neighbour always makes a word boundary. */
  lemma SpaceIsNotWord(c: char)
    requires IsSpace(c)
    ensures !IsWordChar(c) && !IsDigit(c)
  {
  }

  /** Regrouping a concatenation that starts with one character. */
  lemma ConsAssoc(c: char, a: string, b: string)
    ensures [c] + (a + b) == ([c] + a) + b
  {
  }

  /** A slice is its first character followed by the rest. */
  lemma SliceCons(s: string, i: nat, k: nat)
    requires i < k <= |s|
    ensures s[i..k] == [s[i]] + s[i + 1..k]
  {
  }
}
