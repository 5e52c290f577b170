/** The five regular expressions of src/pdf_analysis.rs (lines 16-20), each
    written out as a matcher for its one fixed pattern. A general regex engine
    is not modelled. */
module Patterns {
  import opened Ascii

  /** Characters the class `\s` matches in a Unicode regex (White_Space). */
  predicate IsRegexSpace(c: char) {
    ('\t' <= c <= '\r') || c == ' ' || c == '\U{85}' || c == '\U{A0}' || c == '\U{1680}' ||
    ('\U{2000}' <= c <= '\U{200A}') || c == '\U{2028}' || c == '\U{2029}' ||
    c == '\U{202F}' || c == '\U{205F}' || c == '\U{3000}'
  }

  /** Greedy `\s*` starting at `i`: the first position at or after `i` that
      does not hold a space. */
  function SkipSpaces(text: string, i: nat): (j: nat)
    requires i <= |text|
    ensures i <= j <= |text|
    ensures forall k :: i <= k < j ==> IsRegexSpace(text[k])
    ensures j < |text| ==> !IsRegexSpace(text[j])
    decreases |text| - i
  {
    if i == |text| || !IsRegexSpace(text[i]) then i else SkipSpaces(text, i + 1)
  }

  /** First position at or after `i` holding `c`, or `|text|` when there is none. */
  function IndexOf(text: string, i: nat, c: char): (j: nat)
    requires i <= |text|
    ensures i <= j <= |text|
    ensures forall k :: i <= k < j ==> text[k] != c
    ensures j < |text| ==> text[j] == c
    decreases |text| - i
  {
    if i == |text| || text[i] == c then i else IndexOf(text, i + 1, c)
  }

  /** The literals `tokens[0] \s* tokens[1] \s* …` matched from position `i`;
      the result is where the match ends. Every literal used here starts with a
      character that is not a space, so the greedy `\s*` never has to give a
      character back. */
  function MatchTokens(text: string, i: nat, tokens: seq<string>): (end: Option<nat>)
    requires i <= |text|
    ensures end.Some? ==> i <= end.value <= |text|
    ensures end.Some? && tokens != [] ==> OccursAt(text, i, tokens[0])
    decreases |tokens|
  {
    if tokens == [] then Some(i)
    else if !OccursAt(text, i, tokens[0]) then None
    else if |tokens| == 1 then Some(i + |tokens[0]|)
    else MatchTokens(text, SkipSpaces(text, i + |tokens[0]|), tokens[1..])
  }

  /** Every position in `[a, b)` holds a space. */
  predicate AllSpaces(text: string, a: nat, b: nat)
    requires a <= b <= |text|
  {
    forall k :: a <= k < b ==> IsRegexSpace(text[k])
  }

  /** What `tokens[0] \s* tokens[1] \s* …` means as a regular expression: the
      literals occur in order from `i`, separated by runs of spaces of any
      length, and the last one ends at `end`. */
  ghost predicate SpacedLiteralsAt(text: string, i: nat, tokens: seq<string>, end: nat)
    decreases |tokens|
  {
    if tokens == [] then end == i
    else
      OccursAt(text, i, tokens[0]) &&
      if |tokens| == 1 then end == i + |tokens[0]|
      else exists j :: (i + |tokens[0]| <= j <= |text| && AllSpaces(text, i + |tokens[0]|, j) &&
                        SpacedLiteralsAt(text, j, tokens[1..], end))
  }

  /** Every literal after the first starts with a character that is not a space. */
  predicate LiteralsStartWithNonSpace(tokens: seq<string>) {
    forall k :: 1 <= k < |tokens| ==> |tokens[k]| > 0 && !IsRegexSpace(tokens[k][0])
  }

  /** The greedy matcher finds exactly the matches the regular expression
      describes, when no literal after the first starts with a space. */
  lemma {:induction false} MatchTokensMeaning(text: string, i: nat, tokens: seq<string>, end: nat)
    requires i <= |text| && LiteralsStartWithNonSpace(tokens)
    ensures MatchTokens(text, i, tokens) == Some(end) <==> SpacedLiteralsAt(text, i, tokens, end)
    decreases |tokens|
  {
    if tokens != [] && OccursAt(text, i, tokens[0]) && |tokens| > 1 {
      var start := i + |tokens[0]|;
      var j := SkipSpaces(text, start);
      var rest := tokens[1..];
      assert LiteralsStartWithNonSpace(rest) by {
        forall k | 1 <= k < |rest|
          ensures |rest[k]| > 0 && !IsRegexSpace(rest[k][0])
        {
          assert rest[k] == tokens[k + 1];
        }
      }
      MatchTokensMeaning(text, j, rest, end);
      if SpacedLiteralsAt(text, i, tokens, end) {
        var j' :| start <= j' <= |text| && AllSpaces(text, start, j') && SpacedLiteralsAt(text, j', rest, end);
        assert OccursAt(text, j', rest[0]);
        OccursAtIndex(text, j', rest[0], 0);
        assert j' == j;
      }
      if MatchTokens(text, i, tokens) == Some(end) {
        assert AllSpaces(text, start, j);
      }
    }
  }

  /** One match of a pattern with a capture group `\(([^)]+)\)` at its end. */
  datatype Capture = Capture(group: string, end: nat)

  /** The pattern `tokens … \(([^)]+)\)` matched from position `i` (the last
      token is the opening parenthesis). `[^)]+` stops at the first `)`, which
      must then close the group. */
  function CaptureAt(text: string, i: nat, tokens: seq<string>): (c: Option<Capture>)
    requires i <= |text|
    ensures c.Some? ==> i < c.value.end <= |text|
    ensures c.Some? ==> |c.value.group| > 0 && forall k :: 0 <= k < |c.value.group| ==> c.value.group[k] != ')'
  {
    match MatchTokens(text, i, tokens)
    case None => None
    case Some(m) =>
      var e := IndexOf(text, m, ')');
      if m < e < |text| then Some(Capture(text[m..e], e + 1)) else None
  }

  /** A capture is the text between the end of the literals and the first `)`
      after them; there is one exactly when that text is not empty and a `)`
      follows it. */
  lemma CaptureAtMeaning(text: string, i: nat, tokens: seq<string>)
    requires i <= |text|
    ensures CaptureAt(text, i, tokens).Some? ==>
      var c := CaptureAt(text, i, tokens).value;
      MatchTokens(text, i, tokens).Some? && MatchTokens(text, i, tokens).value < c.end - 1 &&
      text[c.end - 1] == ')' && c.group == text[MatchTokens(text, i, tokens).value..c.end - 1]
    ensures CaptureAt(text, i, tokens).Some? <==>
      MatchTokens(text, i, tokens).Some? &&
      (var m := MatchTokens(text, i, tokens).value;
       m < |text| && text[m] != ')' && exists e :: m < e < |text| && text[e] == ')')
  {
  }

  /** `Regex::captures_iter` from position `from`: the leftmost match, then the
      next one from where it ended; the result lists the groups in order. */
  function Captures(text: string, tokens: seq<string>, from: nat): (groups: seq<string>)
    requires from <= |text|
    ensures forall g :: g in groups ==> |g| > 0 && forall k :: 0 <= k < |g| ==> g[k] != ')'
    decreases |text| - from
  {
    if from == |text| then []
    else match CaptureAt(text, from, tokens)
      case Some(c) => [c.group] + Captures(text, tokens, c.end)
      case None => Captures(text, tokens, from + 1)
  }

  /** `captures_iter` yields nothing exactly when the pattern matches at no
      position from `from` on. */
  lemma {:induction false} CapturesEmpty(text: string, tokens: seq<string>, from: nat)
    requires from <= |text|
    ensures Captures(text, tokens, from) == [] <==> forall p :: from <= p < |text| ==> CaptureAt(text, p, tokens).None?
    decreases |text| - from
  {
    if from < |text| {
      if CaptureAt(text, from, tokens).None? {
        CapturesSkip(text, tokens, from);
        CapturesEmpty(text, tokens, from + 1);
      } else {
        CapturesTake(text, tokens, from);
      }
    }
  }

  /** `p` is the leftmost position from `from` on where the pattern matches. */
  predicate LeftmostCapture(text: string, tokens: seq<string>, from: nat, p: nat)
    requires from <= |text|
  {
    from <= p < |text| && CaptureAt(text, p, tokens).Some? &&
    forall q :: from <= q < p ==> CaptureAt(text, q, tokens).None?
  }

  /** The first group comes from the leftmost match, and the rest from the
      matches after the point where that one ended. */
  lemma {:induction false} CapturesLeftmost(text: string, tokens: seq<string>, from: nat, p: nat)
    requires from <= |text| && LeftmostCapture(text, tokens, from, p)
    ensures Captures(text, tokens, from) ==
      [CaptureAt(text, p, tokens).value.group] + Captures(text, tokens, CaptureAt(text, p, tokens).value.end)
    decreases p - from
  {
    if p == from {
      CapturesTake(text, tokens, from);
    } else {
      CapturesSkip(text, tokens, from);
      assert LeftmostCapture(text, tokens, from + 1, p);
      CapturesLeftmost(text, tokens, from + 1, p);
    }
  }

  lemma CapturesSkip(text: string, tokens: seq<string>, from: nat)
    requires from < |text| && CaptureAt(text, from, tokens).None?
    ensures Captures(text, tokens, from) == Captures(text, tokens, from + 1)
  {
  }

  lemma CapturesTake(text: string, tokens: seq<string>, from: nat)
    requires from < |text| && CaptureAt(text, from, tokens).Some?
    ensures Captures(text, tokens, from) ==
      [CaptureAt(text, from, tokens).value.group] + Captures(text, tokens, CaptureAt(text, from, tokens).value.end)
  {
  }

  // `/JavaScript\s*/JS` (line 16).
  const JS_TOKENS: seq<string> := ["/JavaScript", "/JS"]

  predicate JsMatch(text: string) {
    exists i :: 0 <= i < |text| && MatchTokens(text, i, JS_TOKENS).Some?
  }

  // `/Launch\s*/F\s*\(([^)]+)\)` (line 17); the group is the launch target.
  const LAUNCH_TOKENS: seq<string> := ["/Launch", "/F", "("]

  function LaunchTargets(text: string): seq<string> {
    Captures(text, LAUNCH_TOKENS, 0)
  }

  /** `/OpenAction\s*<<[^>]*(/JS|/Launch)[^>]*>>` (line 18). */
  const OPENACTION_TOKENS: seq<string> := ["/OpenAction", "<<"]

  /** `/JS` or `/Launch` starts at `j` and ends by `q`. */
  predicate ActionKeyWithin(text: string, j: nat, q: nat) {
    (OccursAt(text, j, "/JS") && j + 3 <= q) || (OccursAt(text, j, "/Launch") && j + 7 <= q)
  }

  /** After `<<` at `p` the dictionary runs to the first `>` at `q`, which must
      be the first of `>>`; the action key must lie between the two. */
  predicate OpenActionAt(text: string, i: nat)
    requires i <= |text|
  {
    match MatchTokens(text, i, OPENACTION_TOKENS)
    case None => false
    case Some(p) =>
      var q := IndexOf(text, p, '>');
      q + 1 < |text| && text[q + 1] == '>' &&
      exists j :: p <= j <= q && ActionKeyWithin(text, j, q)
  }

  predicate OpenActionMatch(text: string) {
    exists i :: 0 <= i < |text| && OpenActionAt(text, i)
  }

  /** `[a-z0-9]` under `(?i)`: ASCII letters of either case, digits, and the two
      non-ASCII letters whose simple case folding is `s` or `k`. */
  predicate IsAlnumFolded(c: char) {
    ('a' <= c <= 'z') || ('A' <= c <= 'Z') || ('0' <= c <= '9') || c == '\U{17F}' || c == '\U{212A}'
  }

  /** `[a-z0-9_.-]` under `(?i)`. */
  predicate IsHostChar(c: char) {
    IsAlnumFolded(c) || c == '_' || c == '.' || c == '-'
  }

  /** `[^\s\\/:*?"<>|]`. */
  predicate IsShareChar(c: char) {
    !IsRegexSpace(c) && c != '\\' && c != '/' && c != ':' && c != '*' && c != '?' &&
    c != '"' && c != '<' && c != '>' && c != '|'
  }

  /** `(?i)\\\\[a-z0-9][a-z0-9_.-]{1,98}[a-z0-9]\\[^\s\\/:*?"<>|]{2,}` (line 19)
      matched at `i` with a host name of `h` characters (3 to 100). Only the
      first two share characters matter for whether there is a match. */
  predicate UncAt(text: string, i: nat, h: nat) {
    3 <= h <= 100 && i + h + 5 <= |text| &&
    text[i] == '\\' && text[i + 1] == '\\' &&
    IsAlnumFolded(text[i + 2]) && IsAlnumFolded(text[i + h + 1]) &&
    (forall k :: i + 3 <= k < i + h + 1 ==> IsHostChar(text[k])) &&
    text[i + h + 2] == '\\' &&
    IsShareChar(text[i + h + 3]) && IsShareChar(text[i + h + 4])
  }

  predicate UncMatch(text: string) {
    exists i, h :: 0 <= i < |text| && 3 <= h <= 100 && UncAt(text, i, h)
  }

  /** `/URI\s*\(([^)]+)\)` (line 20); the group is the URI. */
  const URI_TOKENS: seq<string> := ["/URI", "("]

  function UriTargets(text: string): seq<string> {
    Captures(text, URI_TOKENS, 0)
  }

  /** Text with no upper-case ASCII letter, as the lower-cased content is. */
  predicate IsLowerText(text: string) {
    forall k :: 0 <= k < |text| ==> !IsAsciiUpper(text[k])
  }

  /** A literal holding an upper-case letter never occurs in lower-case text. */
  lemma UpperLiteralAbsent(text: string, i: nat, lit: string, k: nat)
    requires IsLowerText(text)
    requires k < |lit| && IsAsciiUpper(lit[k])
    ensures !OccursAt(text, i, lit)
  {
    if OccursAt(text, i, lit) {
      OccursAtIndex(text, i, lit, k);
      assert false;
    }
  }

  /** A pattern whose first literal holds an upper-case letter never matches
      lower-case text at any position. */
  lemma TokensNeverMatch(text: string, i: nat, tokens: seq<string>, k: nat)
    requires IsLowerText(text) && i <= |text|
    requires tokens != [] && k < |tokens[0]| && IsAsciiUpper(tokens[0][k])
    ensures MatchTokens(text, i, tokens) == None
  {
    UpperLiteralAbsent(text, i, tokens[0], k);
  }

  /** ... and so `captures_iter` yields nothing. */
  lemma {:induction false} CapturesNeverMatch(text: string, tokens: seq<string>, k: nat, from: nat)
    requires IsLowerText(text) && from <= |text|
    requires tokens != [] && k < |tokens[0]| && IsAsciiUpper(tokens[0][k])
    ensures Captures(text, tokens, from) == []
    decreases |text| - from
  {
    if from < |text| {
      TokensNeverMatch(text, from, tokens, k);
      CapturesNeverMatch(text, tokens, k, from + 1);
    }
  }

  lemma JsNeverMatches(text: string)
    requires IsLowerText(text)
    ensures !JsMatch(text)
  {
    forall i | 0 <= i < |text|
      ensures MatchTokens(text, i, JS_TOKENS) == None
    {
      TokensNeverMatch(text, i, JS_TOKENS, 1);
    }
  }

  lemma LaunchNeverMatches(text: string)
    requires IsLowerText(text)
    ensures LaunchTargets(text) == []
  {
    CapturesNeverMatch(text, LAUNCH_TOKENS, 1, 0);
  }

  lemma OpenActionNeverMatches(text: string)
    requires IsLowerText(text)
    ensures !OpenActionMatch(text)
  {
    forall i | 0 <= i < |text|
      ensures !OpenActionAt(text, i)
    {
      TokensNeverMatch(text, i, OPENACTION_TOKENS, 1);
    }
  }

  lemma UriNeverMatches(text: string)
    requires IsLowerText(text)
    ensures UriTargets(text) == []
  {
    CapturesNeverMatch(text, URI_TOKENS, 1, 0);
  }

  /** The UNC pattern is the one live regex: it does match lower-case text. */
  lemma UncMatchesLowerCase()
    ensures UncMatch("\\\\srv\\pub")
  {
    var text := "\\\\srv\\pub";
    assert UncAt(text, 0, 3);
  }

  // `/JavaScript\s*/JS` finds a match exactly where the regular expression
  // says one starts.
  lemma JsMatchMeaning(text: string)
    ensures JsMatch(text) <==> exists i: nat, e: nat :: i < |text| && SpacedLiteralsAt(text, i, JS_TOKENS, e)
  {
    assert LiteralsStartWithNonSpace(JS_TOKENS) by {
      assert JS_TOKENS[1][0] == '/';
    }
    forall i: nat, e: nat | i < |text|
      ensures MatchTokens(text, i, JS_TOKENS) == Some(e) <==> SpacedLiteralsAt(text, i, JS_TOKENS, e)
    {
      MatchTokensMeaning(text, i, JS_TOKENS, e);
    }
    if JsMatch(text) {
      var i :| 0 <= i < |text| && MatchTokens(text, i, JS_TOKENS).Some?;
      assert SpacedLiteralsAt(text, i, JS_TOKENS, MatchTokens(text, i, JS_TOKENS).value);
    }
    if exists i: nat, e: nat :: i < |text| && SpacedLiteralsAt(text, i, JS_TOKENS, e) {
      var i: nat, e: nat :| i < |text| && SpacedLiteralsAt(text, i, JS_TOKENS, e);
      assert MatchTokens(text, i, JS_TOKENS).Some?;
    }
  }

  /** On text in its original case the pattern does fire. */
  lemma JsMatchesCapitalised()
    ensures JsMatch("/JavaScript /JS")
  {
    var text := "/JavaScript /JS";
    assert OccursAt(text, 0, "/JavaScript");
    assert OccursAt(text, 12, "/JS");
    assert SkipSpaces(text, 11) == 12;
    assert JS_TOKENS[1..] == ["/JS"];
    assert MatchTokens(text, 0, JS_TOKENS).Some?;
  }

  lemma LaunchLiteralsCapitalised()
    ensures MatchTokens("/Launch /F (cmd.exe)", 0, LAUNCH_TOKENS) == Some(12)
  {
    var text := "/Launch /F (cmd.exe)";
    assert OccursAt(text, 0, "/Launch");
    assert OccursAt(text, 8, "/F");
    assert OccursAt(text, 11, "(");
    assert SkipSpaces(text, 7) == 8 && SkipSpaces(text, 10) == 11;
    assert LAUNCH_TOKENS[1..] == ["/F", "("] && LAUNCH_TOKENS[1..][1..] == ["("];
    assert MatchTokens(text, 11, ["("]) == Some(12);
    assert MatchTokens(text, 8, ["/F", "("]) == Some(12);
  }

  lemma LaunchTargetsCapitalised()
    ensures LaunchTargets("/Launch /F (cmd.exe)") == ["cmd.exe"]
  {
    var text := "/Launch /F (cmd.exe)";
    LaunchLiteralsCapitalised();
    assert IndexOf(text, 12, ')') == 19;
    assert text[12..19] == "cmd.exe";
    assert CaptureAt(text, 0, LAUNCH_TOKENS) == Some(Capture("cmd.exe", |text|));
    CapturesTake(text, LAUNCH_TOKENS, 0);
  }

  lemma OpenActionMatchesCapitalised()
    ensures OpenActionMatch("/OpenAction <</JS>>")
  {
    var text := "/OpenAction <</JS>>";
    assert OccursAt(text, 0, "/OpenAction");
    assert OccursAt(text, 12, "<<");
    assert OccursAt(text, 14, "/JS");
    assert SkipSpaces(text, 11) == 12;
    assert OPENACTION_TOKENS[1..] == ["<<"];
    assert MatchTokens(text, 0, OPENACTION_TOKENS) == Some(14);
    assert IndexOf(text, 14, '>') == 17;
    assert ActionKeyWithin(text, 14, 17);
    assert OpenActionAt(text, 0);
  }

  lemma UriTargetsCapitalised()
    ensures UriTargets("/URI (http://x)") == ["http://x"]
  {
    var text := "/URI (http://x)";
    assert OccursAt(text, 0, "/URI");
    assert OccursAt(text, 5, "(");
    assert SkipSpaces(text, 4) == 5;
    assert URI_TOKENS[1..] == ["("];
    assert MatchTokens(text, 0, URI_TOKENS) == Some(6);
    assert IndexOf(text, 6, ')') == 14;
    assert text[6..14] == "http://x";
    assert CaptureAt(text, 0, URI_TOKENS) == Some(Capture("http://x", |text|));
    CapturesTake(text, URI_TOKENS, 0);
  }

  /** Lower-casing a character keeps it in or out of each class of the UNC
      pattern: the pattern is case-insensitive. */
  lemma UncClassesIgnoreCase(c: char)
    ensures IsAlnumFolded(AsciiLower(c)) == IsAlnumFolded(c)
    ensures IsHostChar(AsciiLower(c)) == IsHostChar(c)
    ensures IsShareChar(AsciiLower(c)) == IsShareChar(c)
    ensures (AsciiLower(c) == '\\') == (c == '\\')
  {
  }

  /** `(?i)`: the UNC pattern matches text exactly when it matches the text
      lower-cased. */
  lemma UncMatchIgnoresCase(text: string)
    ensures UncMatch(ToLowercase(text)) <==> UncMatch(text)
  {
    var lower := ToLowercase(text);
    forall k | 0 <= k < |text|
      ensures IsAlnumFolded(lower[k]) == IsAlnumFolded(text[k])
      ensures IsHostChar(lower[k]) == IsHostChar(text[k])
      ensures IsShareChar(lower[k]) == IsShareChar(text[k])
      ensures (lower[k] == '\\') == (text[k] == '\\')
    {
      UncClassesIgnoreCase(text[k]);
    }
    forall i, h | 0 <= i < |text| && 3 <= h <= 100
      ensures UncAt(lower, i, h) <==> UncAt(text, i, h)
    {
    }
  }
}
