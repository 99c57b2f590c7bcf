# playMovieEnglish link converter, modelled in Dafny

`link_cevir.py` reads numbered English phrases, one per line, and turns each one
into a search link on playphrase.me. It keeps the links that answer with HTTP
200, as `{"url", "title"}` records, in a JSON file whose name the user types in.
This project models that core and proves properties of it:

- `chars.dfy` (module `Chars`) holds the character classes Python uses here,
  restricted to ASCII (whitespace, digits, word characters, ASCII lower-casing).
  It also holds `Span`, the greedy scanner that measures a run of one class.
- `normalizer.dfy` (module `Normalizer`) models `clean_line`. Each of its three
  regular-expression substitutions is a scanner with the same matching rules.
  The leading ordinal is anchored and removed once. Parenthesised numbers are
  found left to right without overlap. Whole-word `grade` is matched in any
  case, with word boundaries judged in the string being scanned. `str.strip()`
  comes last.
- `normalizer_properties.dfy` (module `NormalizerProperties`) proves what
  cleaning guarantees: it only deletes characters, it leaves no whole word
  "grade", and it changes a line exactly when one of its steps finds
  something. It also proves worked examples and that cleaning is not
  idempotent.
- `url_builder.dfy` (module `UrlBuilder`) models `build_link`: `str.split()`,
  `'+'.join` and the two URL constants. It proves what the link contains and
  that, when no token contains `+`, `split('+')` on the query gives the tokens
  back. It also proves that without that condition two different token
  sequences can give the same link.
- `pipeline.dfy` (module `Pipeline`) models `main` without its I/O:
  - the `.json` file-name rule, as a method that reassigns the name;
  - the results loop, as a method with a `while` loop. The method is proved
    equal to a specification that concatenates each line's contribution in
    input order.

The HTTP request in `check_link` is a parameter `fetch: string -> Outcome`. An
`Outcome` is either a response status code or an exception. A link works
exactly when the outcome is `Status(200)`.

Three facts about the code are worth stating, because a reader may expect
otherwise:

- **The worked line keeps two spaces.** `"501. The cat (43) sat grade"` cleans
  to `"The cat  sat"`, because deleting `(43)` leaves both neighbouring spaces.
  `build_link` then collapses the two spaces into one `+`.
- **Cleaning is not idempotent.** Deleting `(2)` from `(1(2))` leaves `(1)`.
  The scan has already passed that spot, so a second cleaning removes it too.
  No claim is made that a cleaned line has no ordinal or parenthesised number
  left.
- **A `+` in a phrase collides with a space.** Nothing is percent-encoded, so
  `"a+b"` (one token) and `"a b"` (two tokens) give the same link, and the
  saved records for such lines share a url while their titles differ.
  Different token sequences give different links only when no token contains
  `+`.

## Model

| member | source | states |
|---|---|---|
| Chars.Span | link_cevir.py:10 | the greedy run of one character class starting at a position: every character in it is of the class and the next one is not |
| Chars.SpanUnique | link_cevir.py:10 | a run with those two properties has exactly the length the scanner finds, so a greedy match is unique |
| Chars.IsSpace | link_cevir.py:10 | the whitespace of `\s`, of `str.split()` and of `str.strip()`: tab to carriage return, 0x1C-0x1F and space; `SpaceIsNotWord` states that none of them is a word character or digit |
| Chars.SpaceIsNotWord | link_cevir.py:12 | a whitespace character is neither a word character nor a digit, so whitespace next to `grade` is a word boundary |
| Chars.IsDigit | link_cevir.py:10-11 | the digits `0`-`9` that `\d` matches |
| Chars.IsWordChar | link_cevir.py:12 | the characters of `\w` that `\b` tells apart from the rest: letters, digits and underscore |
| Chars.ToLower | link_cevir.py:12 | upper-case ASCII letters map to their lower-case letter and every other character to itself, the comparison `re.IGNORECASE` makes |
| Chars.TrailingSpan | link_cevir.py:13 | the longest run of one class at the end of a string: all of it in the class and the character before it not |
| Normalizer.Strip | link_cevir.py:13 | `strip()` removes only whitespace from both ends, and the result is empty or has no whitespace at either end |
| Normalizer.HasOrdinalPrefix | link_cevir.py:10 | `^\s*\d+\.` matches: leading whitespace, then at least one digit, then a full stop; `OrdinalShapeMatches` states that every line of that shape satisfies it |
| Normalizer.OrdinalEnd | link_cevir.py:10 | the end of the ordinal match lies inside the line and is followed by a character that is not whitespace, or by the end: the trailing `\s*` is greedy |
| Normalizer.DropOrdinal | link_cevir.py:10 | the anchored substitution leaves a suffix of the line, no longer than it; `DropOrdinalUnchanged` states when it changes the line |
| Normalizer.ParenNumberAt | link_cevir.py:11 | `\(\d+\)` matches at a position: an open parenthesis, at least one digit, a closing parenthesis |
| Normalizer.ParenNumberEnd | link_cevir.py:11 | the match ends at least three characters on, at its closing parenthesis, with only digits between |
| Normalizer.DropParenNumbersFrom | link_cevir.py:11 | the left-to-right, non-overlapping scan from a position yields at most the characters that remain after it |
| Normalizer.DropParenNumbers | link_cevir.py:11 | the substitution never lengthens the line; `DropParenNumbersUnchanged` states when it changes it |
| Normalizer.GradeAt | link_cevir.py:12 | `\bgrade\b` with `re.IGNORECASE` matches at a position: the five letters in any case, with a non-word character or an end of the string on each side |
| Normalizer.DropGradeWordsFrom | link_cevir.py:12 | the scan from a position yields at most the characters that remain after it |
| Normalizer.DropGradeWords | link_cevir.py:12 | the substitution never lengthens the string; `DropGradeWordsUnchanged` and `DropGradeWordsComplete` state when it changes it and what it leaves |
| Normalizer.StripStart | link_cevir.py:13 | where `strip()` starts: within the string, after the leading whitespace |
| Normalizer.StripEnd | link_cevir.py:13 | where `strip()` ends: between its start and the end of the string |
| Normalizer.IsStripped | link_cevir.py:13 | a string with no whitespace at either end, the form `strip()` returns |
| Normalizer.CleanLine | link_cevir.py:8-13 | the cleaned phrase has no whitespace at either end |
| NormalizerProperties.OrdinalShapeMatches | link_cevir.py:10 | whenever a line starts with whitespace, digits and a full stop, the anchored ordinal pattern matches and removes up to the end of the whitespace after the full stop |
| NormalizerProperties.DropOrdinalSubsequence | link_cevir.py:10 | removing the ordinal only deletes characters |
| NormalizerProperties.DropParenNumbersFromSubsequence | link_cevir.py:11 | removing parenthesised numbers only deletes characters |
| NormalizerProperties.DropGradeWordsFromSubsequence | link_cevir.py:12 | removing the word "grade" only deletes characters |
| NormalizerProperties.StripSubsequence | link_cevir.py:13 | `strip()` only deletes characters |
| NormalizerProperties.CleanLineSubsequence | link_cevir.py:8-13 | the cleaned phrase is the input line with some characters deleted, so it is never longer |
| NormalizerProperties.DropGradeWordsComplete | link_cevir.py:12 | after the substitution no whole word "grade", in any case, is left: a deletion never joins word characters into a new match |
| NormalizerProperties.GradeLettersAreWordChars | link_cevir.py:12 | the five letters of a match are word characters, so a match cannot sit next to another match without a boundary |
| NormalizerProperties.StripKeepsGradeFree | link_cevir.py:13 | stripping cannot create a whole word "grade" |
| NormalizerProperties.CleanLineHasNoGradeWord | link_cevir.py:8-13 | the cleaned phrase contains no whole word "grade" in any case |
| NormalizerProperties.DropOrdinalUnchanged | link_cevir.py:10 | the ordinal step leaves a line unchanged exactly when the line has no ordinal, and otherwise shortens it |
| NormalizerProperties.DropParenNumbersUnchanged | link_cevir.py:11 | the parenthesis step leaves a line unchanged exactly when no parenthesised number occurs in it, and otherwise shortens it |
| NormalizerProperties.DropGradeWordsUnchanged | link_cevir.py:12 | the "grade" step leaves a string unchanged exactly when no whole word "grade" occurs in it, and otherwise shortens it |
| NormalizerProperties.StripUnchanged | link_cevir.py:13 | `strip()` leaves a string unchanged exactly when it has no whitespace at either end, and otherwise shortens it |
| NormalizerProperties.CleanLineUnchanged | link_cevir.py:8-13 | a line comes back unchanged exactly when none of the four steps finds anything to remove |
| NormalizerProperties.DropOneParenGroup | link_cevir.py:11 | a line with one parenthesised number and no other `(` loses exactly that group |
| NormalizerProperties.DropOneGradeWord | link_cevir.py:12 | a line with one whole word "grade" and no other `g` or `G` loses exactly that word |
| NormalizerProperties.CleanLineExample | link_cevir.py:8-13 | `"501. The cat (43) sat grade"` cleans to `"The cat  sat"`, with two spaces |
| NormalizerProperties.CleanLineExampleEmpty | link_cevir.py:8-13 | `"  (12)  grade  "` cleans to the empty phrase |
| NormalizerProperties.CleanLineNotIdempotent | link_cevir.py:8-13 | `"(1(2))"` cleans to `"(1)"`, which cleans to `""`, so cleaning twice can remove more than cleaning once |
| UrlBuilder.Split | link_cevir.py:17 | `str.split()` yields only non-empty tokens free of whitespace |
| UrlBuilder.InToken | link_cevir.py:17 | a character that belongs to a token of `str.split()`: anything but whitespace |
| UrlBuilder.SplitStep | link_cevir.py:17 | leading whitespace, then a run of token characters ending at whitespace or at the end, is the first token `split()` returns |
| UrlBuilder.SplitEmptyIffBlank | link_cevir.py:17 | `split()` yields no token exactly when the phrase is all whitespace |
| UrlBuilder.SplitKeepsNonSpace | link_cevir.py:17 | the tokens, run together, are exactly the non-whitespace characters of the phrase, in order |
| UrlBuilder.JoinPlus | link_cevir.py:17 | joining whitespace-free tokens with `+` gives a whitespace-free string, non-empty when the first token is |
| UrlBuilder.QueryEmptyIffBlank | link_cevir.py:17 | the query part is empty exactly when the phrase is all whitespace, so a non-empty cleaned phrase gives a non-empty query |
| UrlBuilder.Query | link_cevir.py:17 | `encoded`, the tokens joined with `+`, contains no whitespace |
| UrlBuilder.BuildLink | link_cevir.py:15-18 | the link starts with the search endpoint `BASE_URL` (line 5), ends with the language parameter `LANG_PARAM` (line 6), has the joined tokens in between, and contains no whitespace |
| UrlBuilder.JoinSplitOnPlus | link_cevir.py:17 | joining the pieces of `s.split('+')` with `+` gives back `s` |
| UrlBuilder.SplitOnPlusJoin | link_cevir.py:17 | when no token contains `+`, splitting the joined tokens on `+` gives the tokens back |
| UrlBuilder.SameTokensSameLink | link_cevir.py:15-18 | the link depends only on the phrase's tokens |
| UrlBuilder.LinkRoundTrip | link_cevir.py:15-18 | when no token contains `+`, the tokens can be recovered from the link by splitting its middle on `+` |
| UrlBuilder.LinkInjective | link_cevir.py:15-18 | two phrases whose tokens hold no `+` have the same link only if they have the same tokens |
| UrlBuilder.BuildLinkExample | link_cevir.py:15-18 | `"The cat  sat"` gives the query `The+cat+sat` between the two constants |
| UrlBuilder.PlusCollidesWithSpace | link_cevir.py:15-18 | for any two tokens `a` and `b`, the phrase `a+b` splits into one token and `a b` into two, yet both give the same link |
| UrlBuilder.PlusCollisionExample | link_cevir.py:15-18 | `"a+b"` and `"a b"` have different tokens and the same link |
| Pipeline.CheckLink | link_cevir.py:20-26 | a link works exactly when the request returned status 200; an exception or any other status means it does not |
| Pipeline.WithJsonSuffix | link_cevir.py:31-32 | the file name ends with `.json`, starts with the entered name, equals it when it already ends with `.json` and is it plus `.json` otherwise |
| Pipeline.WithJsonSuffixIdempotent | link_cevir.py:31-32 | applying the suffix rule twice gives the same name as applying it once |
| Pipeline.JsonFilename | link_cevir.py:30-32 | the name is the stripped input with the suffix rule applied, and it ends with `.json` |
| Pipeline.CollectLinks | link_cevir.py:37-47 | the loop's record list and its list of failing links are exactly the per-line contributions, in input order |
| Pipeline.LineRecords | link_cevir.py:39-45 | one line adds at most one record; `LineRecordGood` states which |
| Pipeline.LineRecordGood | link_cevir.py:39-45 | the record a line adds has that line's phrase as its title, a non-empty, stripped, "grade"-free title, the link built from it as its url, and a link that works |
| Pipeline.LineDiagnostics | link_cevir.py:39-47 | one line adds at most one failing link; `LineDiagnosticGood` states which |
| Pipeline.LineDiagnosticGood | link_cevir.py:39-47 | the failing link a line adds is the link of its non-empty phrase, and that link does not work |
| Pipeline.LinePhrase | link_cevir.py:39-41 | one line contributes at most one non-empty phrase |
| Pipeline.Run | link_cevir.py:30-47 | `main` without its I/O yields the file name and the two lists that the specification functions give |
| Pipeline.RecordsAppend | link_cevir.py:38-47 | the lines are processed one after another: the results for two stretches of lines run together are their results run together |
| Pipeline.EmptyPhraseAddsNothing | link_cevir.py:39-41 | a line whose phrase is empty adds neither a record nor a diagnostic |
| Pipeline.LineAccounted | link_cevir.py:39-47 | a line with a non-empty phrase gives exactly one record or one diagnostic, and any other line neither |
| Pipeline.EveryPhraseAccounted | link_cevir.py:37-47 | the number of records plus the number of diagnostics is the number of lines whose phrase is not empty |
| Pipeline.RecordsValid | link_cevir.py:39-45 | every saved record has a non-empty, stripped, "grade"-free title that is the phrase of an input line, its url is the link built from that title, and that link works |
| Pipeline.DiagnosticsValid | link_cevir.py:39-47 | every reported url is the link of the non-empty phrase of an input line, and that link does not work |
| Pipeline.AllWorking | link_cevir.py:44-45 | when every request returns 200 there is one record per non-empty phrase and no diagnostic |
| Pipeline.RunExample | link_cevir.py:37-47 | for the two worked lines and a server that accepts the link, the result is the one record `{url: ...The+cat+sat..., title: "The cat  sat"}` and no diagnostic |

## Left out

- The network request is not modelled, including its 8-second timeout. `fetch` stands for what `requests.get` returned for a URL. It is a function, so the same URL always gets the same answer within one run.
- The console prompt, the reading of `metin.txt` and the writing of the JSON file (including `json.dump`'s indentation and `ensure_ascii`) are I/O. The model takes the typed name and the file's lines as inputs and returns the records instead of writing them.
- The printed text of a diagnostic and the final summary line (which prints the number of records) are not modelled. A diagnostic is represented by the URL it names.
- Unicode is not modelled. `\s`, `\d`, `\w`, `re.IGNORECASE`, `str.split()` and `str.strip()` are modelled on ASCII only, so any non-ASCII character counts as neither whitespace, digit nor word character.
- `readlines()` keeps each line's final newline. The model takes the lines as given; a trailing newline is whitespace, which `strip()` removes.
- The Android part of the repository and `build.gradle.kts` contain no program logic related to this core.
