/** What `clean_line` guarantees: it only deletes characters, it leaves no
    whole word "grade" and no outer whitespace, and it returns a line
    unchanged exactly when none of its four steps finds anything to remove. */
module NormalizerProperties {
  import opened Chars
  import opened Normalizer

  // ---------------------------------------------------------------------
  // Subsequences
  // ---------------------------------------------------------------------

  /** `a` is obtained from `b` by deleting characters. */
  predicate IsSubsequence(a: string, b: string)
    decreases |b|
  {
    a == [] ||
    (b != [] && ((a[0] == b[0] && IsSubsequence(a[1..], b[1..])) || IsSubsequence(a, b[1..])))
  }

  lemma {:induction false} SubsequenceLength(a: string, b: string)
    requires IsSubsequence(a, b)
    ensures |a| <= |b|
    decreases |b|
  {
    if a != [] {
      if a[0] == b[0] && IsSubsequence(a[1..], b[1..]) {
        SubsequenceLength(a[1..], b[1..]);
      } else {
        SubsequenceLength(a, b[1..]);
      }
    }
  }

  lemma {:induction false} SubsequenceReflexive(a: string)
    ensures IsSubsequence(a, a)
  {
    if a != [] {
      SubsequenceReflexive(a[1..]);
    }
  }

  lemma {:induction false} SubsequenceTransitive(a: string, b: string, c: string)
    requires IsSubsequence(a, b) && IsSubsequence(b, c)
    ensures IsSubsequence(a, c)
    decreases |c|
  {
    if a != [] {
      if b[0] == c[0] && IsSubsequence(b[1..], c[1..]) {
        if a[0] == b[0] && IsSubsequence(a[1..], b[1..]) {
          SubsequenceTransitive(a[1..], b[1..], c[1..]);
        } else {
          SubsequenceTransitive(a, b[1..], c[1..]);
        }
      } else {
        SubsequenceTransitive(a, b, c[1..]);
      }
    }
  }

  /** A subsequence of a suffix is a subsequence of the whole. */
  lemma {:induction false} SubsequenceOfSuffix(a: string, b: string, k: nat)
    requires k <= |b| && IsSubsequence(a, b[k..])
    ensures IsSubsequence(a, b)
    decreases k
  {
    if k > 0 {
      assert b[1..][k - 1..] == b[k..];
      SubsequenceOfSuffix(a, b[1..], k - 1);
    } else {
      assert b[k..] == b;
    }
  }

  lemma {:induction false} PrefixIsSubsequence(b: string, k: nat)
    requires k <= |b|
    ensures IsSubsequence(b[..k], b)
  {
    if k > 0 {
      assert b[..k][1..] == b[1..][..k - 1];
      PrefixIsSubsequence(b[1..], k - 1);
    }
  }

  // ---------------------------------------------------------------------
  // Each step only deletes
  // ---------------------------------------------------------------------

  lemma DropOrdinalSubsequence(s: string)
    ensures IsSubsequence(DropOrdinal(s), s)
  {
    if HasOrdinalPrefix(s) {
      SubsequenceReflexive(s[OrdinalEnd(s)..]);
      SubsequenceOfSuffix(s[OrdinalEnd(s)..], s, OrdinalEnd(s));
    } else {
      SubsequenceReflexive(s);
    }
  }

  lemma {:induction false} DropParenNumbersFromSubsequence(s: string, i: nat)
    requires i <= |s|
    ensures IsSubsequence(DropParenNumbersFrom(s, i), s[i..])
    decreases |s| - i
  {
    if i < |s| {
      if ParenNumberAt(s, i) {
        var e := ParenNumberEnd(s, i);
        DropParenNumbersFromSubsequence(s, e);
        assert s[i..][e - i..] == s[e..];
        SubsequenceOfSuffix(DropParenNumbersFrom(s, e), s[i..], e - i);
      } else {
        DropParenNumbersFromSubsequence(s, i + 1);
        assert s[i..][1..] == s[i + 1..];
      }
    }
  }

  lemma {:induction false} DropGradeWordsFromSubsequence(s: string, i: nat)
    requires i <= |s|
    ensures IsSubsequence(DropGradeWordsFrom(s, i), s[i..])
    decreases |s| - i
  {
    if i < |s| {
      if GradeAt(s, i) {
        DropGradeWordsFromSubsequence(s, i + 5);
        assert s[i..][5..] == s[i + 5..];
        SubsequenceOfSuffix(DropGradeWordsFrom(s, i + 5), s[i..], 5);
      } else {
        DropGradeWordsFromSubsequence(s, i + 1);
        assert s[i..][1..] == s[i + 1..];
      }
    }
  }

  lemma StripSubsequence(s: string)
    ensures IsSubsequence(Strip(s), s)
  {
    var a, b := StripStart(s), StripEnd(s);
    assert s[a..b] == s[a..][..b - a];
    PrefixIsSubsequence(s[a..], b - a);
    SubsequenceOfSuffix(s[a..b], s, a);
  }

  /** `clean_line` only deletes characters: its result is a subsequence of
      the line and so never longer. */
  lemma CleanLineSubsequence(line: string)
    ensures IsSubsequence(CleanLine(line), line)
    ensures |CleanLine(line)| <= |line|
  {
    var s1 := DropOrdinal(line);
    var s2 := DropParenNumbers(s1);
    var s3 := DropGradeWords(s2);
    DropOrdinalSubsequence(line);
    DropParenNumbersFromSubsequence(s1, 0);
    assert s1[0..] == s1;
    DropGradeWordsFromSubsequence(s2, 0);
    assert s2[0..] == s2;
    StripSubsequence(s3);
    SubsequenceTransitive(s2, s1, line);
    SubsequenceTransitive(s3, s2, line);
    SubsequenceTransitive(CleanLine(line), s3, line);
    SubsequenceLength(CleanLine(line), line);
  }

  // ---------------------------------------------------------------------
  // No whole word "grade" survives
  // ---------------------------------------------------------------------

  /** "grade" as a whole word at `k` of `t`, where `leftWord` says whether
      the character just before `t` is a word character. */
  ghost predicate GradeAfter(t: string, k: nat, leftWord: bool) {
    GradeLettersAt(t, k) &&
    (if k == 0 then !leftWord else !IsWordChar(t[k - 1])) &&
    (k + 5 == |t| || !IsWordChar(t[k + 5]))
  }

  /** Whether the character before position `i` of `s` is a word character. */
  predicate LeftIsWord(s: string, i: nat)
    requires i <= |s|
  {
    i > 0 && IsWordChar(s[i - 1])
  }

  /** Right after a word character there is no word boundary, so the scan
      keeps the next character. */
  lemma KeptAfterWordChar(s: string, j: nat)
    requires 0 < j < |s| && IsWordChar(s[j - 1])
    ensures DropGradeWordsFrom(s, j) == [s[j]] + DropGradeWordsFrom(s, j + 1)
  {
  }

  /** Following a word character, the scan copies its input for as long as
      it keeps meeting word characters. */
  lemma {:induction false} KeptWordRun(s: string, j: nat, n: nat)
    requires 0 < j <= |s| && IsWordChar(s[j - 1])
    requires n <= |DropGradeWordsFrom(s, j)|
    requires forall q :: 0 <= q < n - 1 ==> IsWordChar(DropGradeWordsFrom(s, j)[q])
    ensures j + n <= |s|
    ensures DropGradeWordsFrom(s, j) == s[j..j + n] + DropGradeWordsFrom(s, j + n)
    decreases n
  {
    if n > 0 {
      assert j < |s|;
      KeptAfterWordChar(s, j);
      var r := DropGradeWordsFrom(s, j);
      if n > 1 {
        assert r[0] == s[j];
        var rest := DropGradeWordsFrom(s, j + 1);
        forall q | 0 <= q < n - 2 ensures IsWordChar(rest[q]) {
          assert rest[q] == r[q + 1];
        }
        KeptWordRun(s, j + 1, n - 1);
        SliceCons(s, j, j + n);
        ConsAssoc(s[j], s[j + 1..j + n], DropGradeWordsFrom(s, j + n));
      }
    }
  }

  lemma GradeLettersAreWordChars(t: string, k: nat)
    ensures GradeLettersAt(t, k) ==> forall q :: k <= q < k + 5 ==> IsWordChar(t[q])
  {
  }

  /** After removing a match the scan resumes at a non-word character (or at
      the end), where no new match can begin. */
  lemma ResumesAtNonWord(s: string, i: nat)
    requires GradeAt(s, i)
    ensures var r := DropGradeWordsFrom(s, i + 5); r == [] || (r[0] == s[i + 5] && !IsWordChar(r[0]))
  {
    if i + 5 < |s| {
      GradeLettersAreWordChars(s, i + 5);
      assert !GradeAt(s, i + 5);
    }
  }

  /** Where the scan does not match, its output does not start with a
      whole-word "grade" either: the five letters it copies from there are
      the five letters of `s`, followed by the same next character. */
  lemma NoGradeAtScanStart(s: string, i: nat)
    requires i < |s| && !GradeAt(s, i)
    ensures !GradeAfter(DropGradeWordsFrom(s, i), 0, LeftIsWord(s, i))
  {
    var r := DropGradeWordsFrom(s, i);
    if GradeLettersAt(r, 0) && !LeftIsWord(s, i) {
      CopiedLetters(s, i);
      LettersCarryOver(r, s, i);
      // so the match failed on the right: a word character follows
      GradeLettersAreWordChars(s, i);
      assert i + 5 < |s| && IsWordChar(s[i + 5]);
      KeptAfterWordChar(s, i + 5);
      assert r[5] == s[i + 5];
    }
  }

  /** When the scan's output starts with the letters of "grade" at a place
      where `s` has no match, those letters are copied from `s`. */
  lemma CopiedLetters(s: string, i: nat)
    requires i < |s| && !GradeAt(s, i)
    requires GradeLettersAt(DropGradeWordsFrom(s, i), 0)
    ensures i + 5 <= |s|
    ensures DropGradeWordsFrom(s, i) == s[i..i + 5] + DropGradeWordsFrom(s, i + 5)
  {
    var r := DropGradeWordsFrom(s, i);
    var rest := DropGradeWordsFrom(s, i + 1);
    assert r == [s[i]] + rest;
    GradeLettersAreWordChars(r, 0);
    forall q | 0 <= q < 3 ensures IsWordChar(rest[q]) {
      assert rest[q] == r[q + 1];
    }
    KeptWordRun(s, i + 1, 4);
    SliceCons(s, i, i + 5);
    ConsAssoc(s[i], s[i + 1..i + 5], DropGradeWordsFrom(s, i + 5));
  }

  lemma LettersCarryOver(r: string, s: string, i: nat)
    requires i + 5 <= |s| && |r| >= 5 && r[..5] == s[i..i + 5]
    requires GradeLettersAt(r, 0)
    ensures GradeLettersAt(s, i)
  {
    assert forall q :: 0 <= q < 5 ==> r[q] == r[..5][q] == s[i + q];
  }

  /** The heart of the argument: scanning `s` from `i`, the output holds no
      whole-word "grade", given what precedes position `i` in `s`. A deletion
      removes word characters only from between two non-word neighbours (or
      the ends), so it never joins two word characters into a new word. */
  lemma {:induction false} NoGradeAfterDrop(s: string, i: nat)
    requires i <= |s|
    ensures forall k: nat :: !GradeAfter(DropGradeWordsFrom(s, i), k, LeftIsWord(s, i))
    decreases |s| - i
  {
    var left := LeftIsWord(s, i);
    var r := DropGradeWordsFrom(s, i);
    if i == |s| {
    } else if GradeAt(s, i) {
      assert r == DropGradeWordsFrom(s, i + 5);
      NoGradeAfterDrop(s, i + 5);
      ResumesAtNonWord(s, i);
      GradeLettersAreWordChars(r, 0);
      forall k: nat ensures !GradeAfter(r, k, left) {
        assert !GradeAfter(r, k, LeftIsWord(s, i + 5));
      }
    } else {
      var rest := DropGradeWordsFrom(s, i + 1);
      NoGradeAfterDrop(s, i + 1);
      assert r == [s[i]] + rest;
      forall k: nat ensures !GradeAfter(r, k, left) {
        if k > 0 {
          assert !GradeAfter(rest, k - 1, LeftIsWord(s, i + 1));
          assert GradeAfter(r, k, left) == GradeAfter(rest, k - 1, LeftIsWord(s, i + 1));
        } else {
          NoGradeAtScanStart(s, i);
        }
      }
    }
  }

  /** After step 3, no whole word "grade" is left. */
  lemma DropGradeWordsComplete(s: string)
    ensures forall k: nat :: !GradeAt(DropGradeWords(s), k)
  {
    NoGradeAfterDrop(s, 0);
    forall k: nat ensures !GradeAt(DropGradeWords(s), k) {
      assert !GradeAfter(DropGradeWordsFrom(s, 0), k, LeftIsWord(s, 0));
    }
  }

  /** Stripping cannot create a whole word: what lies outside it is
      whitespace, which is not a word character. */
  lemma StripKeepsGradeFree(s: string)
    requires forall k: nat :: !GradeAt(s, k)
    ensures forall k: nat :: !GradeAt(Strip(s), k)
  {
    forall k: nat ensures !GradeAt(Strip(s), k) {
      StripGradeLifts(s, k);
    }
  }

  /** A whole word in the stripped string is a whole word of `s` at the same
      letters. */
  lemma StripGradeLifts(s: string, k: nat)
    ensures GradeAt(Strip(s), k) ==> GradeAt(s, StripStart(s) + k)
  {
    var a, b := StripStart(s), StripEnd(s);
    var t := Strip(s);
    if GradeAt(t, k) {
      assert t[k..k + 5] == s[a + k..a + k + 5];
      if k == 0 && a > 0 {
        SpaceIsNotWord(s[a - 1]);
      }
      if k + 5 == |t| && b < |s| {
        SpaceIsNotWord(s[b]);
      }
    }
  }

  /** `clean_line` leaves no whole word "grade", in any case. */
  lemma CleanLineHasNoGradeWord(line: string)
    ensures forall k: nat :: !GradeAt(CleanLine(line), k)
  {
    var s3 := DropGradeWords(DropParenNumbers(DropOrdinal(line)));
    DropGradeWordsComplete(DropParenNumbers(DropOrdinal(line)));
    StripKeepsGradeFree(s3);
  }

  // ---------------------------------------------------------------------
  // The leading ordinal has one way to match
  // ---------------------------------------------------------------------

  /** Any split of the start of `s` into whitespace, at least one digit and a
      full stop is what the scanner finds: the regular expression has only
      one way to match. */
  lemma OrdinalShapeMatches(s: string, a: nat, b: nat)
    requires a < b < |s|
    requires forall q :: 0 <= q < a ==> IsSpace(s[q])
    requires forall q :: a <= q < b ==> IsDigit(s[q])
    requires s[b] == '.'
    ensures HasOrdinalPrefix(s)
    ensures DropOrdinal(s) == s[b + 1 + Span(s, b + 1, IsSpace)..]
  {
    OrdinalSpans(s, a, b);
    OrdinalPrefixFromSpans(s, a, b);
    var k := b + 1 + Span(s, b + 1, IsSpace);
    OrdinalEndFromSpans(s, a, b);
    DropOrdinalAt(s, k);
  }

  lemma OrdinalPrefixFromSpans(s: string, a: nat, b: nat)
    requires a < b < |s| && s[b] == '.'
    requires Span(s, 0, IsSpace) == a && Span(s, a, IsDigit) == b - a
    ensures HasOrdinalPrefix(s)
  {
  }

  lemma OrdinalEndFromSpans(s: string, a: nat, b: nat)
    requires a < b < |s| && s[b] == '.'
    requires Span(s, 0, IsSpace) == a && Span(s, a, IsDigit) == b - a
    requires HasOrdinalPrefix(s)
    ensures OrdinalEnd(s) == b + 1 + Span(s, b + 1, IsSpace)
  {
  }

  lemma DropOrdinalAt(s: string, k: nat)
    requires HasOrdinalPrefix(s) && OrdinalEnd(s) == k
    ensures DropOrdinal(s) == s[k..]
  {
  }

  lemma OrdinalSpans(s: string, a: nat, b: nat)
    requires a < b < |s|
    requires forall q :: 0 <= q < a ==> IsSpace(s[q])
    requires forall q :: a <= q < b ==> IsDigit(s[q])
    requires s[b] == '.'
    ensures Span(s, 0, IsSpace) == a && Span(s, a, IsDigit) == b - a
  {
    assert IsDigit(s[a]);
    SpanUnique(s, 0, IsSpace, a);
    SpanUnique(s, a, IsDigit, b - a);
  }

  // ---------------------------------------------------------------------
  // When nothing is removed
  // ---------------------------------------------------------------------

  lemma DropOrdinalUnchanged(s: string)
    ensures DropOrdinal(s) == s <==> !HasOrdinalPrefix(s)
    ensures HasOrdinalPrefix(s) ==> |DropOrdinal(s)| < |s|
  {
  }

  /** Where no group begins, step 2 copies its input. */
  lemma {:induction false} ParenFreeStretch(s: string, i: nat, k: nat)
    requires i <= k <= |s|
    requires forall j: nat :: i <= j < k ==> !ParenNumberAt(s, j)
    ensures DropParenNumbersFrom(s, i) == s[i..k] + DropParenNumbersFrom(s, k)
    decreases k - i
  {
    if i < k {
      ParenFreeStretch(s, i + 1, k);
      ParenFreeStep(s, i);
      SliceCons(s, i, k);
      ConsAssoc(s[i], s[i + 1..k], DropParenNumbersFrom(s, k));
    }
  }

  lemma ParenFreeStep(s: string, i: nat)
    requires i < |s| && !ParenNumberAt(s, i)
    ensures DropParenNumbersFrom(s, i) == [s[i]] + DropParenNumbersFrom(s, i + 1)
  {
  }


  /** A group anywhere at or after `i` makes the output shorter. */
  lemma {:induction false} ParenMatchShrinks(s: string, i: nat, j: nat)
    requires i <= j && ParenNumberAt(s, j)
    ensures |DropParenNumbersFrom(s, i)| < |s| - i
    decreases |s| - i
  {
    if !ParenNumberAt(s, i) {
      ParenMatchShrinks(s, i + 1, j);
    }
  }

  /** Step 2 returns its input unchanged exactly when it holds no `(digits)`
      group. */
  lemma DropParenNumbersUnchanged(s: string)
    ensures DropParenNumbers(s) == s <==> forall j: nat :: !ParenNumberAt(s, j)
    ensures (exists j: nat :: ParenNumberAt(s, j)) ==> |DropParenNumbers(s)| < |s|
  {
    if forall j: nat :: !ParenNumberAt(s, j) {
      ParenFreeStretch(s, 0, |s|);
    } else {
      var j: nat :| ParenNumberAt(s, j);
      ParenMatchShrinks(s, 0, j);
    }
  }

  /** Where no whole-word "grade" begins, step 3 copies its input. */
  lemma {:induction false} GradeFreeStretch(s: string, i: nat, k: nat)
    requires i <= k <= |s|
    requires forall j: nat :: i <= j < k ==> !GradeAt(s, j)
    ensures DropGradeWordsFrom(s, i) == s[i..k] + DropGradeWordsFrom(s, k)
    decreases k - i
  {
    if i < k {
      GradeFreeStretch(s, i + 1, k);
      GradeFreeStep(s, i);
      SliceCons(s, i, k);
      ConsAssoc(s[i], s[i + 1..k], DropGradeWordsFrom(s, k));
    }
  }

  lemma GradeFreeStep(s: string, i: nat)
    requires i < |s| && !GradeAt(s, i)
    ensures DropGradeWordsFrom(s, i) == [s[i]] + DropGradeWordsFrom(s, i + 1)
  {
  }

  lemma {:induction false} GradeMatchShrinks(s: string, i: nat, j: nat)
    requires i <= j && GradeAt(s, j)
    ensures |DropGradeWordsFrom(s, i)| < |s| - i
    decreases |s| - i
  {
    if !GradeAt(s, i) {
      GradeMatchShrinks(s, i + 1, j);
    }
  }

  /** Step 3 returns its input unchanged exactly when it holds no whole word
      "grade". */
  lemma DropGradeWordsUnchanged(s: string)
    ensures DropGradeWords(s) == s <==> forall j: nat :: !GradeAt(s, j)
    ensures (exists j: nat :: GradeAt(s, j)) ==> |DropGradeWords(s)| < |s|
  {
    if forall j: nat :: !GradeAt(s, j) {
      GradeFreeStretch(s, 0, |s|);
    } else {
      var j: nat :| GradeAt(s, j);
      GradeMatchShrinks(s, 0, j);
    }
  }

  /** `strip()` returns its input unchanged exactly when there is no
      whitespace on the outside. */
  lemma StripUnchanged(s: string)
    ensures Strip(s) == s <==> IsStripped(s)
    ensures !IsStripped(s) ==> |Strip(s)| < |s|
  {
    if IsStripped(s) && s != [] {
      SpanUnique(s, 0, IsSpace, 0);
      assert TrailingSpan(s, IsSpace) == 0;
    }
  }

  /** Nothing for any of the four steps to remove. */
  ghost predicate NothingToClean(line: string) {
    && !HasOrdinalPrefix(line)
    && (forall j: nat :: !ParenNumberAt(line, j))
    && (forall j: nat :: !GradeAt(line, j))
    && IsStripped(line)
  }

  /** `clean_line` returns a line unchanged exactly when it has no leading
      ordinal, no `(digits)` group, no whole word "grade" and no outer
      whitespace. */
  lemma CleanLineUnchanged(line: string)
    ensures CleanLine(line) == line <==> NothingToClean(line)
  {
    var s1 := DropOrdinal(line);
    var s2 := DropParenNumbers(s1);
    var s3 := DropGradeWords(s2);
    DropOrdinalUnchanged(line);
    DropParenNumbersUnchanged(s1);
    DropGradeWordsUnchanged(s2);
    StripUnchanged(s3);
    if CleanLine(line) == line {
      // every step only shortens, so none of them removed anything
      assert |s1| <= |line| && |s3| <= |s2| <= |s1|;
      assert |Strip(s3)| <= |s3|;
    }
  }

  // ---------------------------------------------------------------------
  // Two worked lines
  // ---------------------------------------------------------------------

  /** The leading "501. " goes, "(43)" goes and leaves both of its
      neighbouring spaces behind, and the final "grade" goes. */
  lemma CleanLineExample()
    ensures CleanLine("501. The cat (43) sat grade") == "The cat  sat"
  {
    ExampleOrdinal("501. The cat (43) sat grade");
    ExampleParen("The cat (43) sat grade");
    ExampleGrade("The cat  sat grade");
    ExampleStrip("The cat  sat ");
  }

  lemma ExampleOrdinal(s: string)
    requires s == "501. The cat (43) sat grade"
    ensures DropOrdinal(s) == "The cat (43) sat grade"
  {
    ExampleOrdinalEnd(s);
    ExampleAfterOrdinal(s);
  }

  lemma ExampleAfterOrdinal(s: string)
    requires s == "501. The cat (43) sat grade"
    ensures s[5..] == "The cat (43) sat grade"
  {
  }

  lemma ExampleOrdinalEnd(s: string)
    requires s == "501. The cat (43) sat grade"
    ensures DropOrdinal(s) == s[5..]
  {
    assert IsDigit(s[0]) && IsDigit(s[1]) && IsDigit(s[2]) && s[3] == '.';
    assert IsSpace(s[4]) && !IsSpace(s[5]);
    OrdinalWithOneSpace(s, 3);
  }

  lemma ExampleParen(s: string)
    requires s == "The cat (43) sat grade"
    ensures DropParenNumbers(s) == "The cat  sat grade"
  {
    ExampleParenMatch(s);
    assert s[..8] == "The cat " && s[12..] == " sat grade";
  }

  lemma ExampleParenMatch(s: string)
    requires s == "The cat (43) sat grade"
    ensures DropParenNumbers(s) == s[..8] + s[12..]
  {
    assert s[8] == '(' && IsDigit(s[9]) && IsDigit(s[10]) && s[11] == ')';
    assert forall j :: 0 <= j < 8 ==> s[j] != '(';
    assert forall j :: 12 <= j < |s| ==> s[j] != '(';
    DropOneParenGroup(s, 8, 2);
  }

  lemma ExampleGrade(s: string)
    requires s == "The cat  sat grade"
    ensures DropGradeWords(s) == "The cat  sat "
  {
    ExampleGradeMatch(s);
    assert s[..13] == "The cat  sat " && s[18..] == [];
  }

  lemma ExampleGradeMatch(s: string)
    requires s == "The cat  sat grade"
    ensures DropGradeWords(s) == s[..13] + s[18..]
  {
    assert GradeAt(s, 13);
    assert forall j :: 0 <= j < 13 ==> ToLower(s[j]) != 'g';
    DropOneGradeWord(s, 13);
  }

  lemma ExampleStrip(s: string)
    requires s == "The cat  sat "
    ensures Strip(s) == "The cat  sat"
  {
    assert StripStart(s) == 0;
    assert TrailingSpan(s, IsSpace) == 1 by {
      assert TrailingSpan(s[..12], IsSpace) == 0;
    }
  }

  /** A line holding only a group, the word and whitespace cleans to
      nothing. */
  lemma CleanLineExampleEmpty()
    ensures CleanLine("  (12)  grade  ") == ""
  {
    EmptyExampleOrdinal("  (12)  grade  ");
    EmptyExampleParen("  (12)  grade  ");
    EmptyExampleGrade("    grade  ");
    EmptyExampleStrip("      ");
  }

  lemma EmptyExampleOrdinal(s: string)
    requires s == "  (12)  grade  "
    ensures DropOrdinal(s) == s
  {
    SpanUnique(s, 0, IsSpace, 2);
    SpanUnique(s, 2, IsDigit, 0);
  }

  lemma EmptyExampleParen(s: string)
    requires s == "  (12)  grade  "
    ensures DropParenNumbers(s) == "    grade  "
  {
    EmptyExampleParenMatch(s);
    assert s[..2] == "  " && s[6..] == "  grade  ";
  }

  lemma EmptyExampleParenMatch(s: string)
    requires s == "  (12)  grade  "
    ensures DropParenNumbers(s) == s[..2] + s[6..]
  {
    assert s[2] == '(' && IsDigit(s[3]) && IsDigit(s[4]) && s[5] == ')';
    assert forall j :: 0 <= j < 2 ==> s[j] != '(';
    assert forall j :: 6 <= j < |s| ==> s[j] != '(';
    DropOneParenGroup(s, 2, 2);
  }

  lemma EmptyExampleGrade(s: string)
    requires s == "    grade  "
    ensures DropGradeWords(s) == "      "
  {
    EmptyExampleGradeMatch(s);
    assert s[..4] == "    " && s[9..] == "  ";
  }

  lemma EmptyExampleGradeMatch(s: string)
    requires s == "    grade  "
    ensures DropGradeWords(s) == s[..4] + s[9..]
  {
    assert GradeAt(s, 4);
    assert forall j :: 0 <= j < 4 ==> ToLower(s[j]) != 'g';
    assert forall j :: 9 <= j < |s| ==> ToLower(s[j]) != 'g';
    DropOneGradeWord(s, 4);
  }

  lemma EmptyExampleStrip(s: string)
    requires s == "      "
    ensures Strip(s) == ""
  {
    SpanUnique(s, 0, IsSpace, 6);
  }

  /** Cleaning is not idempotent: removing the inner group of "(1(2))"
      joins the outer parentheses around a number that the single left to
      right scan has already passed, so a second cleaning removes more. */
  lemma CleanLineNotIdempotent()
    ensures CleanLine("(1(2))") == "(1)"
    ensures CleanLine("(1)") == ""
  {
    CleanNested("(1(2))");
    CleanInner("(1)");
  }

  lemma CleanNested(s: string)
    requires s == "(1(2))"
    ensures CleanLine(s) == "(1)"
  {
    NestedOrdinal(s);
    NestedParen(s);
    NoGradeTail("(1)", 0);
    NestedStrip("(1)");
  }

  lemma CleanInner(s: string)
    requires s == "(1)"
    ensures CleanLine(s) == ""
  {
    NestedOrdinal(s);
    InnerParen(s);
  }

  lemma NestedOrdinal(s: string)
    requires |s| > 0 && s[0] == '('
    ensures DropOrdinal(s) == s
  {
    assert !IsSpace(s[0]);
    SpanUnique(s, 0, IsSpace, 0);
    SpanUnique(s, 0, IsDigit, 0);
  }

  lemma NestedParen(s: string)
    requires s == "(1(2))"
    ensures DropParenNumbers(s) == "(1)"
  {
    NestedParenFacts(s);
    ParenFreeStretch(s, 0, 2);
    ParenGroupAt(s, 2, 1);
    NoParenTail(s, 5);
    assert DropParenNumbersFrom(s, 2) == DropParenNumbersFrom(s, 5);
  }

  lemma NestedParenFacts(s: string)
    requires s == "(1(2))"
    ensures !ParenNumberAt(s, 0) && !ParenNumberAt(s, 1)
    ensures s[2] == '(' && IsDigit(s[3]) && s[4] == ')'
    ensures forall j :: 5 <= j < |s| ==> s[j] != '('
    ensures s[0..2] + s[5..] == "(1)"
  {
    SpanUnique(s, 1, IsDigit, 1);
  }

  lemma NestedStrip(s: string)
    requires s == "(1)"
    ensures Strip(s) == s
  {
    StripUnchanged(s);
  }

  lemma InnerParen(s: string)
    requires s == "(1)"
    ensures DropParenNumbers(s) == ""
  {
    ParenGroupAt(s, 0, 1);
    assert DropParenNumbersFrom(s, 0) == DropParenNumbersFrom(s, 3);
  }

  // Helpers for lines with a single match of each pattern.

  /** An ordinal followed by exactly one whitespace character. */
  lemma OrdinalWithOneSpace(s: string, b: nat)
    requires 0 < b && b + 2 < |s|
    requires forall q :: 0 <= q < b ==> IsDigit(s[q])
    requires s[b] == '.' && IsSpace(s[b + 1]) && !IsSpace(s[b + 2])
    ensures DropOrdinal(s) == s[b + 2..]
  {
    OrdinalShapeMatches(s, 0, b);
    SpanUnique(s, b + 1, IsSpace, 1);
  }

  /** A stretch with no opening parenthesis is copied as it is. */
  lemma NoParenStretch(s: string, i: nat, k: nat)
    requires i <= k <= |s|
    requires forall j :: i <= j < k ==> s[j] != '('
    ensures DropParenNumbersFrom(s, i) == s[i..k] + DropParenNumbersFrom(s, k)
  {
    ParenFreeStretch(s, i, k);
  }

  /** A line with one parenthesised number of `d` digits at `i` and no other
      opening parenthesis loses exactly that group. */
  lemma DropOneParenGroup(s: string, i: nat, d: nat)
    requires 0 < d && i + d + 1 < |s|
    requires s[i] == '(' && s[i + d + 1] == ')'
    requires forall q :: i < q <= i + d ==> IsDigit(s[q])
    requires forall j :: 0 <= j < i ==> s[j] != '('
    requires forall j :: i + d + 2 <= j < |s| ==> s[j] != '('
    ensures DropParenNumbers(s) == s[..i] + s[i + d + 2..]
  {
    ParenGroupAt(s, i, d);
    var e := i + d + 2;
    assert DropParenNumbersFrom(s, i) == DropParenNumbersFrom(s, e);
    NoParenStretch(s, 0, i);
    NoParenTail(s, e);
    assert s[0..i] == s[..i];
  }

  lemma ParenGroupAt(s: string, i: nat, d: nat)
    requires 0 < d && i + d + 1 < |s|
    requires s[i] == '(' && s[i + d + 1] == ')'
    requires forall q :: i < q <= i + d ==> IsDigit(s[q])
    ensures ParenNumberAt(s, i) && ParenNumberEnd(s, i) == i + d + 2
  {
    SpanUnique(s, i + 1, IsDigit, d);
  }

  /** A tail with no opening parenthesis is copied as it is. */
  lemma NoParenTail(s: string, i: nat)
    requires i <= |s|
    requires forall j :: i <= j < |s| ==> s[j] != '('
    ensures DropParenNumbersFrom(s, i) == s[i..]
  {
    NoParenStretch(s, i, |s|);
    assert s[i..|s|] == s[i..];
  }

  /** A stretch with no letter g is copied as it is. */
  lemma NoGradeStretch(s: string, i: nat, k: nat)
    requires i <= k <= |s|
    requires forall j :: i <= j < k ==> ToLower(s[j]) != 'g'
    ensures DropGradeWordsFrom(s, i) == s[i..k] + DropGradeWordsFrom(s, k)
  {
    GradeFreeStretch(s, i, k);
  }

  /** A line with one whole word "grade" at `i` and no other letter g loses
      exactly that word. */
  lemma DropOneGradeWord(s: string, i: nat)
    requires GradeAt(s, i)
    requires forall j :: 0 <= j < i ==> ToLower(s[j]) != 'g'
    requires forall j :: i + 5 <= j < |s| ==> ToLower(s[j]) != 'g'
    ensures DropGradeWords(s) == s[..i] + s[i + 5..]
  {
    NoGradeStretch(s, 0, i);
    NoGradeTail(s, i + 5);
    assert DropGradeWordsFrom(s, i) == DropGradeWordsFrom(s, i + 5);
    assert s[0..i] == s[..i];
  }

  /** A tail with no letter g is copied as it is. */
  lemma NoGradeTail(s: string, i: nat)
    requires i <= |s|
    requires forall j :: i <= j < |s| ==> ToLower(s[j]) != 'g'
    ensures DropGradeWordsFrom(s, i) == s[i..]
  {
    NoGradeStretch(s, i, |s|);
    assert s[i..|s|] == s[i..];
  }
}
