/** The line normalizer `clean_line`: three regular-expression deletions in a
    fixed order, each written as an explicit scanner, then `strip()`.

      step 1  `^\s*\d+\.\s*`  a leading ordinal such as "501. "   DropOrdinal
      step 2  `\(\d+\)`       every parenthesised number          DropParenNumbers
      step 3  `\bgrade\b`     every whole word "grade", any case  DropGradeWords
      step 4  `strip()`       surrounding whitespace              Strip
*/
module Normalizer {
  import opened Chars

  // ---------------------------------------------------------------------
  // Step 1: the leading ordinal
  // ---------------------------------------------------------------------

  /** `^\s*\d+\.` matches: after the leading whitespace comes at least one
      digit and, right after the digits, a full stop. */
  predicate HasOrdinalPrefix(s: string) {
    var a := Span(s, 0, IsSpace);
    var d := Span(s, a, IsDigit);
    d > 0 && a + d < |s| && s[a + d] == '.'
  }

  /** Where the match of `^\s*\d+\.\s*` ends: after the full stop the
      greedy `\s*` takes all the whitespace that follows. */
  function OrdinalEnd(s: string): (k: nat)
    requires HasOrdinalPrefix(s)
    ensures 0 < k <= |s|
    ensures k == |s| || !IsSpace(s[k])
  {
    var a := Span(s, 0, IsSpace);
    var d := Span(s, a, IsDigit);
    a + d + 1 + Span(s, a + d + 1, IsSpace)
  }

  /** Step 1: `re.sub(r'^\s*\d+\.\s*', '', line)`. The pattern is anchored,
      so it is removed at most once, and what is left is a suffix of the
      line. */
  function DropOrdinal(s: string): (r: string)
    ensures |r| <= |s| && r == s[|s| - |r|..]
  {
    if HasOrdinalPrefix(s) then s[OrdinalEnd(s)..] else s
  }

  // ---------------------------------------------------------------------
  // Step 2: parenthesised numbers
  // ---------------------------------------------------------------------

  /** `\(\d+\)` matches at position `i`. */
  predicate ParenNumberAt(s: string, i: nat) {
    i < |s| && s[i] == '(' &&
    var d := Span(s, i + 1, IsDigit);
    d > 0 && i + 1 + d < |s| && s[i + 1 + d] == ')'
  }

  /** The position just after the closing parenthesis of that match. */
  function ParenNumberEnd(s: string, i: nat): (e: nat)
    requires ParenNumberAt(s, i)
    ensures i + 3 <= e <= |s| && s[e - 1] == ')'
    ensures forall q :: i < q < e - 1 ==> IsDigit(s[q])
  {
    i + 2 + Span(s, i + 1, IsDigit)
  }

  /** Step 2, scanning from position `i`: `re.sub(r'\(\d+\)', '', line)`
      matches left to right without overlap, so after a match the scan goes
      on after its closing parenthesis and after a miss one character on. */
  function DropParenNumbersFrom(s: string, i: nat): (r: string)
    requires i <= |s|
    ensures |r| <= |s| - i
    decreases |s| - i
  {
    if i == |s| then []
    else if ParenNumberAt(s, i) then DropParenNumbersFrom(s, ParenNumberEnd(s, i))
    else [s[i]] + DropParenNumbersFrom(s, i + 1)
  }

  function DropParenNumbers(s: string): (r: string)
    ensures |r| <= |s|
  {
    DropParenNumbersFrom(s, 0)
  }

  // ---------------------------------------------------------------------
  // Step 3: the word "grade"
  // ---------------------------------------------------------------------

  /** The five letters at `i` spell "grade" in any mix of cases. */
  predicate GradeLettersAt(s: string, i: nat) {
    i + 5 <= |s| &&
    ToLower(s[i]) == 'g' && ToLower(s[i + 1]) == 'r' && ToLower(s[i + 2]) == 'a' &&
    ToLower(s[i + 3]) == 'd' && ToLower(s[i + 4]) == 'e'
  }

  /** `\bgrade\b` matches at position `i` (with `re.IGNORECASE`): the letters,
      and a non-word character or the end of the string on either side. */
  predicate GradeAt(s: string, i: nat) {
    GradeLettersAt(s, i) &&
    (i == 0 || !IsWordChar(s[i - 1])) &&
    (i + 5 == |s| || !IsWordChar(s[i + 5]))
  }

  /** Step 3, scanning from position `i`; the boundary tests look at the
      neighbours in `s`, the string being scanned. */
  function DropGradeWordsFrom(s: string, i: nat): (r: string)
    requires i <= |s|
    ensures |r| <= |s| - i
    decreases |s| - i
  {
    if i == |s| then []
    else if GradeAt(s, i) then DropGradeWordsFrom(s, i + 5)
    else [s[i]] + DropGradeWordsFrom(s, i + 1)
  }

  function DropGradeWords(s: string): (r: string)
    ensures |r| <= |s|
  {
    DropGradeWordsFrom(s, 0)
  }

  // ---------------------------------------------------------------------
  // Step 4: strip
  // ---------------------------------------------------------------------

  /** Where `strip()` starts: after the leading whitespace. */
  function StripStart(s: string): (a: nat)
    ensures a <= |s|
  {
    Span(s, 0, IsSpace)
  }

  /** Where `strip()` ends: before the trailing whitespace; a string of
      whitespace alone is cut to nothing. */
  function StripEnd(s: string): (b: nat)
    ensures StripStart(s) <= b <= |s|
  {
    if StripStart(s) == |s| then |s| else |s| - TrailingSpan(s, IsSpace)
  }

  /** Python's `str.strip()` with no argument. */
  function Strip(s: string): (r: string)
    ensures forall q :: 0 <= q < StripStart(s) ==> IsSpace(s[q])
    ensures forall q :: StripEnd(s) <= q < |s| ==> IsSpace(s[q])
    ensures r == [] || (!IsSpace(r[0]) && !IsSpace(r[|r| - 1]))
  {
    s[StripStart(s)..StripEnd(s)]
  }

  /** No whitespace on the outside. */
  predicate IsStripped(s: string) {
    s == [] || (!IsSpace(s[0]) && !IsSpace(s[|s| - 1]))
  }

  // ---------------------------------------------------------------------
  // clean_line
  // ---------------------------------------------------------------------

  /** `clean_line`: the three deletions in order, then `strip()`. The result
      has no whitespace on the outside. */
  function CleanLine(line: string): (phrase: string)
    ensures IsStripped(phrase)
  {
    Strip(DropGradeWords(DropParenNumbers(DropOrdinal(line))))
  }
}
