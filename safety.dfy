/** The safety agent: flags overconfident and biased wording in a generated
    answer and redacts social-security-number-shaped text. */
module Safety {
  import opened Common

  const ProhibitedPatterns: seq<string> :=
    ["guaranteed approval", "100% success", "always approved", "never denied"]

  const BiasPatterns: seq<string> :=
    ["should be", "must be", "obviously", "clearly wrong"]

  const SsnIssue: string := "Potential SSN detected - redacting"

  const Redaction: string := "[REDACTED]"

  /** Length of a match of `\b\d{3}-\d{2}-\d{4}\b`. */
  const SsnLength: nat := 11

  datatype IssueKind = Overconfident | Bias

  function IssueText(kind: IssueKind, pattern: string): string {
    match kind
    case Overconfident => "Overconfident claim detected: '" + pattern + "'"
    case Bias => "Potential bias: '" + pattern + "'"
  }

  /** One issue per pattern of `patterns` contained in `text`, in list order. */
  function PatternIssues(kind: IssueKind, patterns: seq<string>, text: string): seq<string>
    decreases |patterns|
  {
    if patterns == [] then []
    else
      var p := patterns[|patterns| - 1];
      PatternIssues(kind, patterns[..|patterns| - 1], text) + (if Contains(text, p) then [IssueText(kind, p)] else [])
  }

  // ---------------------------------------------------------------------------
  // SSN-shaped text, over ASCII

  predicate IsDigit(c: char) {
    '0' <= c <= '9'
  }

  /** `\w` restricted to ASCII. */
  predicate IsWordChar(c: char) {
    IsDigit(c) || 'a' <= c <= 'z' || 'A' <= c <= 'Z' || c == '_'
  }

  /** `\d{3}-\d{2}-\d{4}` matches the eleven characters from `i` on. */
  predicate SsnShapeAt(s: string, i: nat)
    requires i + SsnLength <= |s|
  {
    IsDigit(s[i]) && IsDigit(s[i + 1]) && IsDigit(s[i + 2]) && s[i + 3] == '-'
    && IsDigit(s[i + 4]) && IsDigit(s[i + 5]) && s[i + 6] == '-'
    && IsDigit(s[i + 7]) && IsDigit(s[i + 8]) && IsDigit(s[i + 9]) && IsDigit(s[i + 10])
  }

  /** The whole pattern, word boundaries included, matches at `i`. */
  predicate SsnAt(s: string, i: nat) {
    i + SsnLength <= |s|
    && SsnShapeAt(s, i)
    && (i == 0 || !IsWordChar(s[i - 1]))
    && (i + SsnLength == |s| || !IsWordChar(s[i + SsnLength]))
  }

  /** `re.search(ssn_pattern, s)` finds something. */
  ghost predicate HasSsn(s: string) {
    exists i: nat :: i < |s| && SsnAt(s, i)
  }

  /** `re.sub(ssn_pattern, "[REDACTED]", s)` from position `i`: scan left to
      right, replace each match and resume after it. */
  function RedactFrom(s: string, i: nat): string
    decreases |s| - i
  {
    if i >= |s| then []
    else if SsnAt(s, i) then Redaction + RedactFrom(s, i + SsnLength)
    else [s[i]] + RedactFrom(s, i + 1)
  }

  function Redact(s: string): string {
    RedactFrom(s, 0)
  }

  /** `re.search`: is there a match anywhere in `s`? */
  method SearchSsn(s: string) returns (found: bool)
    ensures found == HasSsn(s)
  {
    var i := 0;
    while i < |s|
      invariant 0 <= i <= |s|
      invariant forall j: nat :: j < i ==> !SsnAt(s, j)
    {
      if SsnAt(s, i) {
        return true;
      }
      i := i + 1;
    }
    return false;
  }

  /** `re.sub`: replace every non-overlapping match by "[REDACTED]". */
  method SubstituteSsn(s: string) returns (redacted: string)
    ensures redacted == Redact(s)
  {
    redacted := "";
    var i := 0;
    while i < |s|
      invariant 0 <= i <= |s|
      invariant redacted + RedactFrom(s, i) == Redact(s)
      decreases |s| - i
    {
      if SsnAt(s, i) {
        redacted := redacted + Redaction;
        i := i + SsnLength;
      } else {
        redacted := redacted + [s[i]];
        i := i + 1;
      }
    }
  }

  // ---------------------------------------------------------------------------
  // The check

  /** The safety record returned to the pipeline. */
  datatype SafetyReport = SafetyReport(
    isSafe: bool,
    content: string,
    safetyIssues: seq<string>,
    moderationApplied: bool)

  /** `run_safety_check`. */
  method RunSafetyCheck(content: string) returns (report: SafetyReport)
    ensures report.safetyIssues ==
      PatternIssues(Overconfident, ProhibitedPatterns, Lower(content))
      + PatternIssues(Bias, BiasPatterns, Lower(content))
      + (if HasSsn(content) then [SsnIssue] else [])
    ensures report.content == (if HasSsn(content) then Redact(content) else content)
    ensures report.content == Redact(content)
    ensures report.isSafe <==> report.safetyIssues == []
    ensures report.moderationApplied == !report.isSafe
  {
    var issues: seq<string> := [];
    var contentLower := Lower(content);

    var k := 0;
    while k < |ProhibitedPatterns|
      invariant 0 <= k <= |ProhibitedPatterns|
      invariant issues == PatternIssues(Overconfident, ProhibitedPatterns[..k], contentLower)
    {
      var pattern := ProhibitedPatterns[k];
      PatternIssuesStep(Overconfident, ProhibitedPatterns, contentLower, k);
      if Contains(contentLower, pattern) {
        issues := issues + [IssueText(Overconfident, pattern)];
      }
      k := k + 1;
    }
    assert ProhibitedPatterns[..k] == ProhibitedPatterns;
    var overconfident := issues;

    k := 0;
    while k < |BiasPatterns|
      invariant 0 <= k <= |BiasPatterns|
      invariant issues == overconfident + PatternIssues(Bias, BiasPatterns[..k], contentLower)
    {
      var pattern := BiasPatterns[k];
      PatternIssuesStep(Bias, BiasPatterns, contentLower, k);
      if Contains(contentLower, pattern) {
        issues := issues + [IssueText(Bias, pattern)];
      }
      k := k + 1;
    }
    assert BiasPatterns[..k] == BiasPatterns;

    var filtered := content;
    var found := SearchSsn(content);
    if found {
      issues := issues + [SsnIssue];
      filtered := SubstituteSsn(content);
    }

    RedactUnchangedIff(content);
    var isSafe := |issues| == 0;
    report := SafetyReport(isSafe, filtered, issues, |issues| > 0);
  }

  lemma PatternIssuesStep(kind: IssueKind, patterns: seq<string>, text: string, k: nat)
    requires k < |patterns|
    ensures PatternIssues(kind, patterns[..k + 1], text)
      == PatternIssues(kind, patterns[..k], text) + (if Contains(text, patterns[k]) then [IssueText(kind, patterns[k])] else [])
  {
    assert patterns[..k + 1][..k] == patterns[..k];
  }

  // ---------------------------------------------------------------------------
  // Properties

  lemma IssueTextInjective(kind: IssueKind, p: string, q: string)
    requires IssueText(kind, p) == IssueText(kind, q)
    ensures p == q
  {
    var pre := IssueText(kind, "")[..|IssueText(kind, "")| - 1];
    assert IssueText(kind, p) == pre + p + "'";
    assert IssueText(kind, q) == pre + q + "'";
    assert p == IssueText(kind, p)[|pre|..|pre| + |p|];
    assert q == IssueText(kind, q)[|pre|..|pre| + |q|];
  }

  /** An issue of a kind is reported for a pattern exactly when the pattern is
      in the list and occurs in the text; the list never exceeds the patterns. */
  lemma {:induction false} PatternIssuesMembers(kind: IssueKind, patterns: seq<string>, text: string, p: string)
    ensures IssueText(kind, p) in PatternIssues(kind, patterns, text) <==> p in patterns && Contains(text, p)
    ensures |PatternIssues(kind, patterns, text)| <= |patterns|
    decreases |patterns|
  {
    if patterns != [] {
      var init := patterns[..|patterns| - 1];
      var last := patterns[|patterns| - 1];
      PatternIssuesMembers(kind, init, text, p);
      assert p in patterns <==> p in init || p == last;
      if IssueText(kind, p) == IssueText(kind, last) {
        IssueTextInjective(kind, p, last);
      }
    }
  }

  /** Every issue of a kind carries that kind's prefix. */
  lemma {:induction false} PatternIssuesShape(kind: IssueKind, patterns: seq<string>, text: string)
    ensures forall m :: m in PatternIssues(kind, patterns, text) ==>
      exists p :: p in patterns && m == IssueText(kind, p)
    decreases |patterns|
  {
    if patterns != [] {
      PatternIssuesShape(kind, patterns[..|patterns| - 1], text);
      var last := patterns[|patterns| - 1];
      assert last in patterns;
      forall p | p in patterns[..|patterns| - 1]
        ensures p in patterns
      {
      }
    }
  }

  lemma SsnIssueIsNoPatternIssue(kind: IssueKind, p: string)
    ensures IssueText(kind, p) != SsnIssue
  {
    var m := IssueText(kind, p);
    match kind
    case Overconfident =>
      assert m[0] == 'O' && SsnIssue[0] == 'P';
    case Bias =>
      assert m[10] == 'b' && SsnIssue[10] == 'S';
  }

  /** However many SSN-shaped matches there are, exactly one SSN issue is
      reported when there is any and none otherwise. */
  lemma OneSsnIssue(content: string, issues: seq<string>)
    requires issues ==
      PatternIssues(Overconfident, ProhibitedPatterns, Lower(content))
      + PatternIssues(Bias, BiasPatterns, Lower(content))
      + (if HasSsn(content) then [SsnIssue] else [])
    ensures multiset(issues)[SsnIssue] == if HasSsn(content) then 1 else 0
  {
    var a := PatternIssues(Overconfident, ProhibitedPatterns, Lower(content));
    var b := PatternIssues(Bias, BiasPatterns, Lower(content));
    PatternIssuesShape(Overconfident, ProhibitedPatterns, Lower(content));
    PatternIssuesShape(Bias, BiasPatterns, Lower(content));
    if SsnIssue in a {
      var p :| p in ProhibitedPatterns && SsnIssue == IssueText(Overconfident, p);
      SsnIssueIsNoPatternIssue(Overconfident, p);
    }
    if SsnIssue in b {
      var p :| p in BiasPatterns && SsnIssue == IssueText(Bias, p);
      SsnIssueIsNoPatternIssue(Bias, p);
    }
    assert multiset(a)[SsnIssue] == 0 && multiset(b)[SsnIssue] == 0;
    assert multiset(issues) == multiset(a) + multiset(b) + multiset(if HasSsn(content) then [SsnIssue] else []);
  }

  lemma {:induction false} RedactFromLength(s: string, i: nat)
    requires i <= |s|
    ensures |RedactFrom(s, i)| <= |s| - i
    decreases |s| - i
  {
    if i < |s| {
      if SsnAt(s, i) {
        RedactFromLength(s, i + SsnLength);
      } else {
        RedactFromLength(s, i + 1);
      }
    }
  }

  lemma {:induction false} RedactFromNoMatch(s: string, i: nat)
    requires i <= |s|
    requires forall j: nat :: i <= j < |s| ==> !SsnAt(s, j)
    ensures RedactFrom(s, i) == s[i..]
    decreases |s| - i
  {
    if i < |s| {
      RedactFromNoMatch(s, i + 1);
      assert s[i..] == [s[i]] + s[i + 1..];
    }
  }

  lemma {:induction false} RedactFromShrinks(s: string, i: nat, j: nat)
    requires i <= j && SsnAt(s, j)
    ensures |RedactFrom(s, i)| < |s| - i
    decreases |s| - i
  {
    if SsnAt(s, i) {
      RedactFromLength(s, i + SsnLength);
    } else {
      RedactFromShrinks(s, i + 1, j);
    }
  }

  /** Redaction changes the text exactly when it holds an SSN-shaped match: each
      eleven-character match becomes the ten characters "[REDACTED]". */
  lemma RedactUnchangedIff(s: string)
    ensures Redact(s) == s <==> !HasSsn(s)
  {
    if HasSsn(s) {
      var j: nat :| j < |s| && SsnAt(s, j);
      RedactFromShrinks(s, 0, j);
    } else {
      RedactFromNoMatch(s, 0);
    }
  }
}
