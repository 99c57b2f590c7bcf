/** The URL builder `build_link`: split the phrase on whitespace, join the
    tokens with `+`, and put the result between the search endpoint and the
    language parameter. Nothing is percent-encoded. */
module UrlBuilder {
  import opened Chars

  /** The search endpoint, up to and including `q=`. */
  const BASE_URL: string := "https://www.playphrase.me/#/search?q="

  /** The fixed language parameter after the query. */
  const LANG_PARAM: string := "&language=en"

  /** A character that belongs to a token of `str.split()`: anything but
      whitespace. It is named, rather than written as a lambda, because
      every use of `Span` over token characters must pass the same
      function. */
  predicate InToken(c: char) {
    !IsSpace(c)
  }

  /** What `str.split()` yields: a non-empty run of non-whitespace. */
  predicate IsToken(t: string) {
    t != [] && forall q :: 0 <= q < |t| ==> InToken(t[q])
  }

  /** Python's `str.split()` with no argument: skip a run of whitespace,
      take the following run of non-whitespace as a token, repeat. Leading,
      trailing and repeated whitespace yield no empty tokens. */
  function Split(s: string): (tokens: seq<string>)
    ensures forall k :: 0 <= k < |tokens| ==> IsToken(tokens[k])
    decreases |s|
  {
    var a := Span(s, 0, IsSpace);
    if a == |s| then []
    else
      var n := Span(s, a, InToken);
      [s[a..a + n]] + Split(s[a + n..])
  }

  /** `'+'.join(tokens)`. */
  function JoinPlus(tokens: seq<string>): (r: string)
    ensures (forall k :: 0 <= k < |tokens| ==> IsToken(tokens[k])) ==>
              (forall q :: 0 <= q < |r| ==> InToken(r[q]))
    ensures |tokens| > 0 && tokens[0] != [] ==> r != []
  {
    if |tokens| == 0 then []
    else if |tokens| == 1 then tokens[0]
    else tokens[0] + "+" + JoinPlus(tokens[1..])
  }

  /** Python's `s.split('+')`: the pieces between the plus signs, always at
      least one, empty pieces included. */
  function SplitOnPlus(s: string): (pieces: seq<string>)
    ensures |pieces| >= 1
    decreases |s|
  {
    if s == [] then [[]]
    else
      var rest := SplitOnPlus(s[1..]);
      if s[0] == '+' then [[]] + rest
      else [[s[0]] + rest[0]] + rest[1..]
  }

  /** The query part of the link, `encoded` in `build_link`. */
  function Query(phrase: string): (encoded: string)
    ensures forall q :: 0 <= q < |encoded| ==> !IsSpace(encoded[q])
  {
    JoinPlus(Split(phrase))
  }

  /** `build_link`: the query between the two constants. The link contains
      no whitespace at all. */
  function BuildLink(phrase: string): (url: string)
    ensures |url| >= |BASE_URL| + |LANG_PARAM|
    ensures url[..|BASE_URL|] == BASE_URL
    ensures url[|url| - |LANG_PARAM|..] == LANG_PARAM
    ensures url[|BASE_URL|..|url| - |LANG_PARAM|] == Query(phrase)
    ensures forall q :: 0 <= q < |url| ==> !IsSpace(url[q])
  {
    var query := Query(phrase);
    LinkParts(BASE_URL, query, LANG_PARAM);
    ConstantsHaveNoSpace();
    BASE_URL + query + LANG_PARAM
  }

  /** The three parts can be cut back out of the link, and it has
      whitespace only where one of them has. */
  lemma LinkParts(x: string, y: string, z: string)
    ensures (x + y + z)[..|x|] == x
    ensures (x + y + z)[|x + y + z| - |z|..] == z
    ensures (x + y + z)[|x|..|x + y + z| - |z|] == y
    ensures forall q :: 0 <= q < |x + y + z| ==>
              (x + y + z)[q] == (if q < |x| then x[q] else if q < |x| + |y| then y[q - |x|] else z[q - |x| - |y|])
  {
  }

  lemma ConstantsHaveNoSpace()
    ensures forall q :: 0 <= q < |BASE_URL| ==> !IsSpace(BASE_URL[q])
    ensures forall q :: 0 <= q < |LANG_PARAM| ==> !IsSpace(LANG_PARAM[q])
  {
  }

  // ---------------------------------------------------------------------
  // Split
  // ---------------------------------------------------------------------

  /** `Split` finds no token exactly when the phrase is all whitespace. */
  lemma SplitEmptyIffBlank(s: string)
    ensures Split(s) == [] <==> forall q :: 0 <= q < |s| ==> IsSpace(s[q])
  {
    var a := Span(s, 0, IsSpace);
    if a < |s| {
      assert !IsSpace(s[a]);
    }
  }

  /** The query is empty exactly when the phrase is all whitespace; in
      particular a stripped non-empty phrase gives a non-empty query. */
  lemma QueryEmptyIffBlank(phrase: string)
    ensures Query(phrase) == [] <==> forall q :: 0 <= q < |phrase| ==> IsSpace(phrase[q])
  {
    SplitEmptyIffBlank(phrase);
  }

  /** The non-whitespace characters of `s`, in order. */
  function NonSpace(s: string): string {
    if s == [] then []
    else if IsSpace(s[0]) then NonSpace(s[1..])
    else [s[0]] + NonSpace(s[1..])
  }

  function Concat(tokens: seq<string>): string {
    if tokens == [] then [] else tokens[0] + Concat(tokens[1..])
  }

  /** Leading whitespace contributes nothing. */
  lemma {:induction false} NonSpaceSkipsBlank(s: string, a: nat)
    requires a <= |s|
    requires forall q :: 0 <= q < a ==> IsSpace(s[q])
    ensures NonSpace(s) == NonSpace(s[a..])
    decreases a
  {
    if a > 0 {
      NonSpaceSkipsBlank(s[1..], a - 1);
      assert s[1..][a - 1..] == s[a..];
    }
  }

  /** A leading run of token characters is kept as it is. */
  lemma {:induction false} NonSpaceKeepsToken(s: string, n: nat)
    requires n <= |s|
    requires forall q :: 0 <= q < n ==> InToken(s[q])
    ensures NonSpace(s) == s[..n] + NonSpace(s[n..])
    decreases n
  {
    if n > 0 {
      NonSpaceKeepsToken(s[1..], n - 1);
      assert s[1..][n - 1..] == s[n..];
      assert s[..n] == [s[0]] + s[1..][..n - 1];
    }
  }

  /** `Split` drops whitespace and nothing else: its tokens, run together,
      are the non-whitespace characters of the phrase in order. */
  lemma {:induction false} SplitKeepsNonSpace(s: string)
    ensures Concat(Split(s)) == NonSpace(s)
    decreases |s|
  {
    var a := Span(s, 0, IsSpace);
    if a == |s| {
      NonSpaceSkipsBlank(s, |s|);
    } else {
      var n := Span(s, a, InToken);
      SplitKeepsNonSpace(s[a + n..]);
      NonSpaceOfFirstToken(s, a, n);
    }
  }

  lemma NonSpaceOfFirstToken(s: string, a: nat, n: nat)
    requires a + n <= |s|
    requires forall q :: 0 <= q < a ==> IsSpace(s[q])
    requires forall q :: a <= q < a + n ==> InToken(s[q])
    ensures NonSpace(s) == s[a..a + n] + NonSpace(s[a + n..])
  {
    NonSpaceSkipsBlank(s, a);
    NonSpaceOfSuffixToken(s, a, n);
  }

  lemma NonSpaceOfSuffixToken(s: string, a: nat, n: nat)
    requires a + n <= |s|
    requires forall q :: a <= q < a + n ==> InToken(s[q])
    ensures NonSpace(s[a..]) == s[a..a + n] + NonSpace(s[a + n..])
  {
    var t := s[a..];
    NonSpaceKeepsToken(t, n);
    SuffixSlices(s, a, n);
  }

  lemma SuffixSlices(s: string, a: nat, n: nat)
    requires a + n <= |s|
    ensures s[a..][..n] == s[a..a + n] && s[a..][n..] == s[a + n..]
  {
  }

  /** The two tokens `Split` takes from the front fix it: whitespace up to
      `a`, then a token of length `n` that ends at whitespace or at the end. */
  lemma SplitStep(s: string, a: nat, n: nat)
    requires 0 < n && a + n <= |s|
    requires forall q :: 0 <= q < a ==> IsSpace(s[q])
    requires forall q :: a <= q < a + n ==> InToken(s[q])
    requires a + n == |s| || IsSpace(s[a + n])
    ensures Split(s) == [s[a..a + n]] + Split(s[a + n..])
  {
    SplitSpans(s, a, n);
    SplitUnfold(s, a, n);
  }

  lemma SplitSpans(s: string, a: nat, n: nat)
    requires 0 < n && a + n <= |s|
    requires forall q :: 0 <= q < a ==> IsSpace(s[q])
    requires forall q :: a <= q < a + n ==> InToken(s[q])
    requires a + n == |s| || IsSpace(s[a + n])
    ensures Span(s, 0, IsSpace) == a && Span(s, a, InToken) == n
  {
    SpanUnique(s, 0, IsSpace, a);
    SpanUnique(s, a, InToken, n);
  }

  lemma SplitUnfold(s: string, a: nat, n: nat)
    requires 0 < n && a + n <= |s|
    requires Span(s, 0, IsSpace) == a && Span(s, a, InToken) == n
    ensures Split(s) == [s[a..a + n]] + Split(s[a + n..])
  {
  }

  // ---------------------------------------------------------------------
  // Join and split on '+'
  // ---------------------------------------------------------------------

  lemma JoinPlusCons(t: string, tokens: seq<string>)
    requires |tokens| >= 1
    ensures JoinPlus([t] + tokens) == t + "+" + JoinPlus(tokens)
  {
    assert ([t] + tokens)[1..] == tokens;
  }

  /** Joining the pieces of `s.split('+')` with `+` gives back `s`, for
      every `s`. */
  lemma {:induction false} JoinSplitOnPlus(s: string)
    ensures JoinPlus(SplitOnPlus(s)) == s
    decreases |s|
  {
    if s != [] {
      var rest := SplitOnPlus(s[1..]);
      JoinSplitOnPlus(s[1..]);
      if s[0] == '+' {
        JoinPlusCons([], rest);
      } else if |rest| == 1 {
        assert SplitOnPlus(s) == [[s[0]] + rest[0]];
      } else {
        assert rest == [rest[0]] + rest[1..];
        JoinPlusCons(rest[0], rest[1..]);
        JoinPlusCons([s[0]] + rest[0], rest[1..]);
      }
    }
  }

  /** Splitting on `+` passes through a stretch without `+`. */
  lemma {:induction false} SplitOnPlusPrefix(a: string, b: string)
    requires '+' !in a
    ensures SplitOnPlus(a + b) == [a + SplitOnPlus(b)[0]] + SplitOnPlus(b)[1..]
    decreases |a|
  {
    var pieces := SplitOnPlus(b);
    if a == [] {
      assert a + b == b;
      assert a + pieces[0] == pieces[0];
      assert pieces == [pieces[0]] + pieces[1..];
    } else {
      assert (a + b)[1..] == a[1..] + b;
      assert a[0] in a;
      SplitOnPlusPrefix(a[1..], b);
      assert [a[0]] + (a[1..] + SplitOnPlus(b)[0]) == a + SplitOnPlus(b)[0];
    }
  }

  /** When no token contains `+`, splitting the joined string on `+` gives
      the tokens back. */
  lemma {:induction false} SplitOnPlusJoin(tokens: seq<string>)
    requires |tokens| >= 1
    requires forall k :: 0 <= k < |tokens| ==> '+' !in tokens[k]
    ensures SplitOnPlus(JoinPlus(tokens)) == tokens
  {
    if |tokens| == 1 {
      SplitOnPlusPrefix(tokens[0], []);
      assert tokens[0] + [] == tokens[0];
    } else {
      var rest := JoinPlus(tokens[1..]);
      SplitOnPlusJoin(tokens[1..]);
      assert JoinPlus(tokens) == tokens[0] + ("+" + rest);
      SplitOnPlusPrefix(tokens[0], "+" + rest);
      assert ("+" + rest)[1..] == rest;
      assert tokens[0] + [] == tokens[0];
    }
  }

  // ---------------------------------------------------------------------
  // build_link
  // ---------------------------------------------------------------------

  /** Phrases with the same tokens give the same link. */
  lemma SameTokensSameLink(p: string, p': string)
    requires Split(p) == Split(p')
    ensures BuildLink(p) == BuildLink(p')
  {
  }

  /** Round trip: when no token contains `+`, splitting the query part of
      the link on `+` gives back the phrase's tokens. */
  lemma LinkRoundTrip(phrase: string)
    requires Split(phrase) != []
    requires forall k :: 0 <= k < |Split(phrase)| ==> '+' !in Split(phrase)[k]
    ensures var url := BuildLink(phrase);
      SplitOnPlus(url[|BASE_URL|..|url| - |LANG_PARAM|]) == Split(phrase)
  {
    SplitOnPlusJoin(Split(phrase));
  }

  /** The link determines the tokens: two phrases whose tokens hold no `+`
      and whose links are equal have the same tokens. */
  lemma LinkInjective(p: string, p': string)
    requires forall k :: 0 <= k < |Split(p)| ==> '+' !in Split(p)[k]
    requires forall k :: 0 <= k < |Split(p')| ==> '+' !in Split(p')[k]
    requires BuildLink(p) == BuildLink(p')
    ensures Split(p) == Split(p')
  {
    var url := BuildLink(p);
    assert Query(p) == url[|BASE_URL|..|url| - |LANG_PARAM|] == Query(p');
    if Split(p) == [] || Split(p') == [] {
      assert Query(p) == [] && Query(p') == [];
    } else {
      SplitOnPlusJoin(Split(p));
      SplitOnPlusJoin(Split(p'));
    }
  }

  /** Nothing is percent-encoded, so a `+` inside a token reads like the
      separator: the phrase `a+b` is one token and `a b` is two, yet both
      give the same link. */
  lemma PlusCollidesWithSpace(a: string, b: string)
    requires IsToken(a) && IsToken(b)
    ensures Split(a + "+" + b) == [a + "+" + b]
    ensures Split(a + " " + b) == [a, b]
    ensures Split(a + "+" + b) != Split(a + " " + b)
    ensures BuildLink(a + "+" + b) == BuildLink(a + " " + b)
  {
    PlusJoinsTokens(a, b);
    SplitWholeToken(a + "+" + b);
    SplitTwoTokens(a, b);
    JoinPlusCons(a, [b]);
  }

  /** The smallest instance: `"a+b"` and `"a b"` collide. */
  lemma PlusCollisionExample()
    ensures Split("a+b") == ["a+b"] && Split("a b") == ["a", "b"]
    ensures BuildLink("a+b") == BuildLink("a b")
  {
    assert IsToken("a") && IsToken("b");
    PlusCollidesWithSpace("a", "b");
    assert "a" + "+" + "b" == "a+b" && "a" + " " + "b" == "a b";
  }

  /** Two tokens glued by `+` form one token. */
  lemma PlusJoinsTokens(a: string, b: string)
    requires IsToken(a) && IsToken(b)
    ensures IsToken(a + "+" + b)
  {
    var t := a + "+" + b;
    forall q | 0 <= q < |t| ensures InToken(t[q]) {
      if q < |a| {
        assert t[q] == a[q];
      } else if q > |a| {
        assert t[q] == b[q - |a| - 1];
      }
    }
  }

  /** A phrase that is a single token splits into that token alone. */
  lemma SplitWholeToken(t: string)
    requires IsToken(t)
    ensures Split(t) == [t]
  {
    SplitStep(t, 0, |t|);
    assert t[0..|t|] == t;
    assert Split(t[|t|..]) == [];
  }

  /** Two tokens separated by one space split into those two tokens. */
  lemma SplitTwoTokens(a: string, b: string)
    requires IsToken(a) && IsToken(b)
    ensures Split(a + " " + b) == [a, b]
  {
    var s := a + " " + b;
    TwoTokensFacts(s, a, b);
    SplitStepNamed(s, 0, |a|, a);
    SplitSpaceToken(b);
  }

  lemma TwoTokensFacts(s: string, a: string, b: string)
    requires IsToken(a) && s == a + " " + b
    ensures 0 < |a| < |s|
    ensures forall q :: 0 <= q < |a| ==> InToken(s[q])
    ensures IsSpace(s[|a|])
    ensures s[0..|a|] == a && s[|a|..] == " " + b
  {
    forall q | 0 <= q < |a| ensures InToken(s[q]) {
      assert s[q] == a[q];
    }
  }

  /** One space, then a token. */
  lemma SplitSpaceToken(b: string)
    requires IsToken(b)
    ensures Split(" " + b) == [b]
  {
    var s := " " + b;
    forall q | 1 <= q < |s| ensures InToken(s[q]) {
      assert s[q] == b[q - 1];
    }
    SplitStep(s, 1, |b|);
    assert s[1..1 + |b|] == b && s[1 + |b|..] == [];
    assert Split([]) == [];
  }

  /** The phrase of the worked line: the two spaces collapse into one `+`. */
  lemma BuildLinkExample()
    ensures BuildLink("The cat  sat") == BASE_URL + "The+cat+sat" + LANG_PARAM
  {
    ExampleQuery("The cat  sat");
  }

  lemma ExampleQuery(s: string)
    requires s == "The cat  sat"
    ensures Query(s) == "The+cat+sat"
  {
    ExampleSplit(s);
    ExampleJoin(["The", "cat", "sat"]);
  }

  lemma ExampleJoin(tokens: seq<string>)
    requires tokens == ["The", "cat", "sat"]
    ensures JoinPlus(tokens) == "The+cat+sat"
  {
    JoinPlusCons("cat", ["sat"]);
    assert JoinPlus(["cat", "sat"]) == "cat+sat";
    JoinPlusCons("The", ["cat", "sat"]);
    assert tokens == ["The"] + ["cat", "sat"];
  }

  lemma ExampleSplit(s: string)
    requires s == "The cat  sat"
    ensures Split(s) == ["The", "cat", "sat"]
  {
    ExampleSplitFirst(s);
    ExampleSplitRest(s[3..]);
  }

  lemma ExampleSplitFirst(s: string)
    requires s == "The cat  sat"
    ensures s[3..] == " cat  sat"
    ensures Split(s) == ["The"] + Split(s[3..])
  {
    ExampleFirstFacts(s);
    SplitStepNamed(s, 0, 3, "The");
  }

  lemma ExampleFirstFacts(s: string)
    requires s == "The cat  sat"
    ensures forall q :: 0 <= q < 3 ==> InToken(s[q])
    ensures IsSpace(s[3])
    ensures s[0..3] == "The" && s[3..] == " cat  sat"
  {
  }

  lemma ExampleSplitRest(s: string)
    requires s == " cat  sat"
    ensures Split(s) == ["cat", "sat"]
  {
    ExampleSplitSecond(s);
    ExampleSplitLast(s[4..]);
  }

  lemma ExampleSplitSecond(s: string)
    requires s == " cat  sat"
    ensures s[4..] == "  sat"
    ensures Split(s) == ["cat"] + Split(s[4..])
  {
    ExampleSecondFacts(s);
    SplitStepNamed(s, 1, 3, "cat");
  }

  lemma ExampleSecondFacts(s: string)
    requires s == " cat  sat"
    ensures forall q :: 0 <= q < 1 ==> IsSpace(s[q])
    ensures forall q :: 1 <= q < 4 ==> InToken(s[q])
    ensures IsSpace(s[4])
    ensures s[1..4] == "cat" && s[4..] == "  sat"
  {
  }

  lemma ExampleSplitLast(s: string)
    requires s == "  sat"
    ensures Split(s) == ["sat"]
  {
    ExampleLastFacts(s);
    SplitStepNamed(s, 2, 3, "sat");
    assert Split(s[5..]) == [];
  }

  lemma ExampleLastFacts(s: string)
    requires s == "  sat"
    ensures |s| == 5
    ensures forall q :: 0 <= q < 2 ==> IsSpace(s[q])
    ensures forall q :: 2 <= q < 5 ==> InToken(s[q])
    ensures s[2..5] == "sat" && s[5..] == []
  {
  }

  /** `SplitStep` with the token given by name. */
  lemma SplitStepNamed(s: string, a: nat, n: nat, token: string)
    requires 0 < n && a + n <= |s|
    requires forall q :: 0 <= q < a ==> IsSpace(s[q])
    requires forall q :: a <= q < a + n ==> InToken(s[q])
    requires a + n == |s| || IsSpace(s[a + n])
    requires s[a..a + n] == token
    ensures Split(s) == [token] + Split(s[a + n..])
  {
    SplitStep(s, a, n);
  }
}
