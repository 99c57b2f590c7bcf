/** The driver `main`: the output file name rule, and the loop that turns
    each line of the input file into a working link record, a diagnostic for
    a link that does not work, or nothing. The network request behind
    `check_link` is an oracle `fetch` from a URL to what the request gave. */
module Pipeline {
  import opened Chars
  import opened Normalizer
  import opened NormalizerProperties
  import opened UrlBuilder

  /** What `requests.get(url, timeout=8)` gave: a response with its status
      code, or an exception (timeout, connection error, ...). */
  datatype Outcome = Status(code: int) | Error

  /** One entry of the saved JSON list: `{"url": ..., "title": ...}`. */
  datatype Record = Record(url: string, title: string)

  /** `check_link`: the link works exactly when a response came back with
      status 200; an exception counts as not working. */
  function CheckLink(o: Outcome): (ok: bool)
    ensures ok <==> o == Status(200)
  {
    o.Status? && o.code == 200
  }

  // ---------------------------------------------------------------------
  // The output file name
  // ---------------------------------------------------------------------

  predicate EndsWith(s: string, suffix: string) {
    |suffix| <= |s| && s[|s| - |suffix|..] == suffix
  }

  const JSON_EXT: string := ".json"

  /** The file name rule: `.json` is appended unless the name already ends
      with it. */
  function WithJsonSuffix(name: string): (r: string)
    ensures EndsWith(r, JSON_EXT)
    ensures |name| <= |r| && r[..|name|] == name
    ensures EndsWith(name, JSON_EXT) ==> r == name
    ensures !EndsWith(name, JSON_EXT) ==> r == name + JSON_EXT
  {
    if EndsWith(name, JSON_EXT) then name else name + JSON_EXT
  }

  /** Applying the rule twice is applying it once. */
  lemma WithJsonSuffixIdempotent(name: string)
    ensures WithJsonSuffix(WithJsonSuffix(name)) == WithJsonSuffix(name)
  {
  }

  /** The name as read from the console, `input().strip()`, then the rule;
      the variable is reassigned as in the source. */
  method JsonFilename(entered: string) returns (jsonFilename: string)
    ensures jsonFilename == WithJsonSuffix(Strip(entered))
    ensures EndsWith(jsonFilename, JSON_EXT)
  {
    jsonFilename := Strip(entered);
    if !EndsWith(jsonFilename, JSON_EXT) {
      jsonFilename := jsonFilename + JSON_EXT;
    }
  }

  // ---------------------------------------------------------------------
  // The results loop, as specification functions
  // ---------------------------------------------------------------------

  /** The contributions of `step` for each line, run together in input
      order. The loop builds its lists this way, one line after another. */
  function Collect<T>(lines: seq<string>, step: string -> seq<T>): seq<T>
    decreases |lines|
  {
    if lines == [] then []
    else Collect(lines[..|lines| - 1], step) + step(lines[|lines| - 1])
  }

  /** What one line contributes to the saved list: nothing when its phrase
      is empty or its link does not work, else the record of its link. */
  function LineRecords(line: string, fetch: string -> Outcome): (rs: seq<Record>)
    ensures |rs| <= 1
  {
    var phrase := CleanLine(line);
    if phrase == [] then []
    else
      var url := BuildLink(phrase);
      if CheckLink(fetch(url)) then [Record(url, phrase)] else []
  }

  /** What one line contributes to the diagnostics: the link, when the
      phrase is not empty and the link does not work. */
  function LineDiagnostics(line: string, fetch: string -> Outcome): (us: seq<string>)
    ensures |us| <= 1
  {
    var phrase := CleanLine(line);
    if phrase == [] then []
    else
      var url := BuildLink(phrase);
      if CheckLink(fetch(url)) then [] else [url]
  }

  /** The phrase of a line, when it is not empty. */
  function LinePhrase(line: string): (ps: seq<string>)
    ensures |ps| <= 1
  {
    if CleanLine(line) == [] then [] else [CleanLine(line)]
  }

  function RecordStep(fetch: string -> Outcome): string -> seq<Record> {
    line => LineRecords(line, fetch)
  }

  function DiagnosticStep(fetch: string -> Outcome): string -> seq<string> {
    line => LineDiagnostics(line, fetch)
  }

  function PhraseStep(): string -> seq<string> {
    line => LinePhrase(line)
  }

  /** The records the loop has collected after the given lines. */
  function Records(lines: seq<string>, fetch: string -> Outcome): seq<Record> {
    Collect(lines, RecordStep(fetch))
  }

  /** The URLs reported as not working after the given lines. */
  function Diagnostics(lines: seq<string>, fetch: string -> Outcome): seq<string> {
    Collect(lines, DiagnosticStep(fetch))
  }

  /** The non-empty phrases of the given lines, in input order. */
  function Phrases(lines: seq<string>): seq<string> {
    Collect(lines, PhraseStep())
  }

  /** The loop: clean each line, skip an empty phrase, build the link, and
      keep it as a record when it works or report it otherwise. */
  method CollectLinks(lines: seq<string>, fetch: string -> Outcome)
    returns (results: seq<Record>, failures: seq<string>)
    ensures results == Records(lines, fetch)
    ensures failures == Diagnostics(lines, fetch)
  {
    results := [];
    failures := [];
    var i := 0;
    while i < |lines|
      invariant 0 <= i <= |lines|
      invariant results == Records(lines[..i], fetch)
      invariant failures == Diagnostics(lines[..i], fetch)
    {
      CollectSnoc(lines, i, RecordStep(fetch));
      CollectSnoc(lines, i, DiagnosticStep(fetch));
      var phrase := CleanLine(lines[i]);
      if phrase == [] {
        i := i + 1;
        continue;
      }
      var url := BuildLink(phrase);
      if CheckLink(fetch(url)) {
        results := results + [Record(url, phrase)];
      } else {
        failures := failures + [url];
      }
      i := i + 1;
    }
    assert lines[..|lines|] == lines;
  }

  /** `main` without its I/O: the file name, and what the loop produces from
      the lines of the input file. */
  method Run(entered: string, lines: seq<string>, fetch: string -> Outcome)
    returns (jsonFilename: string, results: seq<Record>, failures: seq<string>)
    ensures jsonFilename == WithJsonSuffix(Strip(entered))
    ensures results == Records(lines, fetch)
    ensures failures == Diagnostics(lines, fetch)
  {
    jsonFilename := JsonFilename(entered);
    results, failures := CollectLinks(lines, fetch);
  }

  // ---------------------------------------------------------------------
  // Collecting line by line
  // ---------------------------------------------------------------------

  /** One more line adds its own contribution at the end. */
  lemma CollectSnoc<T>(lines: seq<string>, i: nat, step: string -> seq<T>)
    requires i < |lines|
    ensures Collect(lines[..i + 1], step) == Collect(lines[..i], step) + step(lines[i])
  {
    assert lines[..i + 1][..i] == lines[..i];
  }

  /** Two stretches of lines run together give their contributions run
      together, in order. */
  lemma {:induction false} CollectAppend<T>(a: seq<string>, b: seq<string>, step: string -> seq<T>)
    ensures Collect(a + b, step) == Collect(a, step) + Collect(b, step)
    decreases |b|
  {
    if b == [] {
      assert a + b == a;
    } else {
      assert (a + b)[..|a + b| - 1] == a + b[..|b| - 1];
      assert (a + b)[|a + b| - 1] == b[|b| - 1];
      CollectAppend(a, b[..|b| - 1], step);
    }
  }

  /** A single line contributes what its step gives. */
  lemma CollectOne<T>(line: string, step: string -> seq<T>)
    ensures Collect([line], step) == step(line)
  {
    assert [line][..0] == [];
  }

  /** Everything collected comes from one of the lines. */
  lemma {:induction false} CollectFrom<T>(lines: seq<string>, step: string -> seq<T>, x: T)
    requires x in Collect(lines, step)
    ensures exists j :: 0 <= j < |lines| && x in step(lines[j])
    decreases |lines|
  {
    var init := lines[..|lines| - 1];
    if x in Collect(init, step) {
      CollectFrom(init, step, x);
      var j :| 0 <= j < |init| && x in step(init[j]);
      assert lines[j] == init[j];
    } else {
      assert x in step(lines[|lines| - 1]);
    }
  }

  /** When the sizes of three contributions add up on every line, the
      sizes of what is collected add up too. */
  lemma {:induction false} CollectSizes<T, U, V>(lines: seq<string>, s1: string -> seq<T>,
                                               s2: string -> seq<U>, s3: string -> seq<V>)
    requires forall line :: |s1(line)| + |s2(line)| == |s3(line)|
    ensures |Collect(lines, s1)| + |Collect(lines, s2)| == |Collect(lines, s3)|
    decreases |lines|
  {
    if lines != [] {
      CollectSizes(lines[..|lines| - 1], s1, s2, s3);
    }
  }

  /** When every line contributes nothing, nothing is collected. */
  lemma {:induction false} CollectNothing<T>(lines: seq<string>, step: string -> seq<T>)
    requires forall line :: step(line) == []
    ensures Collect(lines, step) == []
    decreases |lines|
  {
    if lines != [] {
      CollectNothing(lines[..|lines| - 1], step);
    }
  }

  // ---------------------------------------------------------------------
  // Properties of the loop
  // ---------------------------------------------------------------------

  /** The loop treats the lines one after another: the results of two
      stretches of lines run together are the results of each, in order. */
  lemma RecordsAppend(a: seq<string>, b: seq<string>, fetch: string -> Outcome)
    ensures Records(a + b, fetch) == Records(a, fetch) + Records(b, fetch)
    ensures Diagnostics(a + b, fetch) == Diagnostics(a, fetch) + Diagnostics(b, fetch)
    ensures Phrases(a + b) == Phrases(a) + Phrases(b)
  {
    CollectAppend(a, b, RecordStep(fetch));
    CollectAppend(a, b, DiagnosticStep(fetch));
    CollectAppend(a, b, PhraseStep());
  }

  /** A line whose phrase is empty (a blank line, or one made only of an
      ordinal, numbers in parentheses and "grade") adds nothing. */
  lemma EmptyPhraseAddsNothing(lines: seq<string>, line: string, fetch: string -> Outcome)
    requires CleanLine(line) == []
    ensures Records(lines + [line], fetch) == Records(lines, fetch)
    ensures Diagnostics(lines + [line], fetch) == Diagnostics(lines, fetch)
  {
    RecordsAppend(lines, [line], fetch);
    CollectOne(line, RecordStep(fetch));
    CollectOne(line, DiagnosticStep(fetch));
    assert LineRecords(line, fetch) == [] && LineDiagnostics(line, fetch) == [];
  }

  /** A line with a non-empty phrase gives exactly one record or one
      diagnostic, a line with an empty phrase neither. */
  lemma LineAccounted(line: string, fetch: string -> Outcome)
    ensures |LineRecords(line, fetch)| + |LineDiagnostics(line, fetch)| == |LinePhrase(line)|
  {
  }

  /** Every line with a non-empty phrase gives exactly one record or one
      diagnostic. */
  lemma EveryPhraseAccounted(lines: seq<string>, fetch: string -> Outcome)
    ensures |Records(lines, fetch)| + |Diagnostics(lines, fetch)| == |Phrases(lines)|
  {
    forall line
      ensures |RecordStep(fetch)(line)| + |DiagnosticStep(fetch)(line)| == |PhraseStep()(line)|
    {
      LineAccounted(line, fetch);
    }
    CollectSizes(lines, RecordStep(fetch), DiagnosticStep(fetch), PhraseStep());
  }

  /** What a record says about its title: it is the non-empty, stripped,
      "grade"-free phrase of a line, the url is the link built from it, and
      the link works. */
  ghost predicate GoodRecord(r: Record, fetch: string -> Outcome) {
    r.title != [] && IsStripped(r.title) &&
    (forall k: nat :: !GradeAt(r.title, k)) &&
    r.url == BuildLink(r.title) && CheckLink(fetch(r.url))
  }

  /** The record of one line, if any, is good and carries that line's
      phrase. */
  lemma LineRecordGood(line: string, fetch: string -> Outcome)
    ensures forall r :: r in LineRecords(line, fetch) ==>
              GoodRecord(r, fetch) && r.title == CleanLine(line)
  {
    CleanLineHasNoGradeWord(line);
  }

  /** Every saved record is good and carries the phrase of one of the input
      lines. */
  lemma RecordsValid(lines: seq<string>, fetch: string -> Outcome)
    ensures forall r :: r in Records(lines, fetch) ==>
              GoodRecord(r, fetch) && exists j :: 0 <= j < |lines| && CleanLine(lines[j]) == r.title
  {
    forall r | r in Records(lines, fetch)
      ensures GoodRecord(r, fetch) && exists j :: 0 <= j < |lines| && CleanLine(lines[j]) == r.title
    {
      CollectFrom(lines, RecordStep(fetch), r);
      var j :| 0 <= j < |lines| && r in RecordStep(fetch)(lines[j]);
      LineRecordGood(lines[j], fetch);
    }
  }

  /** The diagnostic of one line, if any, is the link of its non-empty
      phrase, and that link does not work. */
  lemma LineDiagnosticGood(line: string, fetch: string -> Outcome)
    ensures forall u :: u in LineDiagnostics(line, fetch) ==>
              CleanLine(line) != [] && u == BuildLink(CleanLine(line)) && !CheckLink(fetch(u))
  {
  }

  /** Every diagnostic is the link of the non-empty phrase of one of the
      input lines, and a link that does not work. */
  lemma DiagnosticsValid(lines: seq<string>, fetch: string -> Outcome)
    ensures forall u :: u in Diagnostics(lines, fetch) ==>
              !CheckLink(fetch(u)) &&
              exists j :: 0 <= j < |lines| && CleanLine(lines[j]) != [] && BuildLink(CleanLine(lines[j])) == u
  {
    forall u | u in Diagnostics(lines, fetch)
      ensures !CheckLink(fetch(u)) &&
        exists j :: 0 <= j < |lines| && CleanLine(lines[j]) != [] && BuildLink(CleanLine(lines[j])) == u
    {
      CollectFrom(lines, DiagnosticStep(fetch), u);
      var j :| 0 <= j < |lines| && u in DiagnosticStep(fetch)(lines[j]);
      LineDiagnosticGood(lines[j], fetch);
    }
  }

  /** When every link works, there is one record per non-empty phrase and no
      diagnostic. */
  lemma AllWorking(lines: seq<string>, fetch: string -> Outcome)
    requires forall u :: fetch(u) == Status(200)
    ensures |Records(lines, fetch)| == |Phrases(lines)|
    ensures Diagnostics(lines, fetch) == []
  {
    forall line ensures DiagnosticStep(fetch)(line) == [] {
      assert LineDiagnostics(line, fetch) == [];
    }
    CollectNothing(lines, DiagnosticStep(fetch));
    EveryPhraseAccounted(lines, fetch);
  }

  /** The worked example: a numbered line and a line that cleans to nothing,
      with a server that accepts the link. */
  lemma RunExample(fetch: string -> Outcome)
    requires fetch(BASE_URL + "The+cat+sat" + LANG_PARAM) == Status(200)
    ensures Records(["501. The cat (43) sat grade", "  (12)  grade  "], fetch)
         == [Record(BASE_URL + "The+cat+sat" + LANG_PARAM, "The cat  sat")]
    ensures Diagnostics(["501. The cat (43) sat grade", "  (12)  grade  "], fetch) == []
  {
    var lines := ["501. The cat (43) sat grade", "  (12)  grade  "];
    ExampleFirstLine(lines[0], fetch);
    ExampleSecondLine(lines[1], fetch);
    ExampleTwoLines(lines, fetch);
  }

  lemma ExampleFirstLine(line: string, fetch: string -> Outcome)
    requires line == "501. The cat (43) sat grade"
    requires fetch(BASE_URL + "The+cat+sat" + LANG_PARAM) == Status(200)
    ensures LineRecords(line, fetch) == [Record(BASE_URL + "The+cat+sat" + LANG_PARAM, "The cat  sat")]
    ensures LineDiagnostics(line, fetch) == []
  {
    CleanLineExample();
    BuildLinkExample();
    WorkingLine(line, fetch, "The cat  sat", BASE_URL + "The+cat+sat" + LANG_PARAM);
  }

  lemma ExampleSecondLine(line: string, fetch: string -> Outcome)
    requires line == "  (12)  grade  "
    ensures LineRecords(line, fetch) == []
    ensures LineDiagnostics(line, fetch) == []
  {
    CleanLineExampleEmpty();
    SkippedLine(line, fetch);
  }

  /** A line whose phrase is not empty and whose link works gives one record
      and no diagnostic. */
  lemma WorkingLine(line: string, fetch: string -> Outcome, phrase: string, url: string)
    requires CleanLine(line) == phrase && phrase != []
    requires BuildLink(phrase) == url && fetch(url) == Status(200)
    ensures LineRecords(line, fetch) == [Record(url, phrase)]
    ensures LineDiagnostics(line, fetch) == []
  {
  }

  /** A line whose phrase is empty gives nothing. */
  lemma SkippedLine(line: string, fetch: string -> Outcome)
    requires CleanLine(line) == []
    ensures LineRecords(line, fetch) == []
    ensures LineDiagnostics(line, fetch) == []
  {
  }

  lemma ExampleTwoLines(lines: seq<string>, fetch: string -> Outcome)
    requires |lines| == 2
    ensures Records(lines, fetch) == LineRecords(lines[0], fetch) + LineRecords(lines[1], fetch)
    ensures Diagnostics(lines, fetch) == LineDiagnostics(lines[0], fetch) + LineDiagnostics(lines[1], fetch)
  {
    assert lines == [lines[0]] + [lines[1]];
    RecordsAppend([lines[0]], [lines[1]], fetch);
    CollectOne(lines[0], RecordStep(fetch));
    CollectOne(lines[1], RecordStep(fetch));
    CollectOne(lines[0], DiagnosticStep(fetch));
    CollectOne(lines[1], DiagnosticStep(fetch));
  }
}
