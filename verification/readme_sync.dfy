/** The pure core of the README synchroniser: summarising pytest's verbose
    output, rendering the "Test Execution Results" Markdown section, and
    splicing that section into the README text. Running pytest, the clock,
    and reading/writing README.md are outside the model: the captured
    output, the formatted timestamp and the README text (or its absence)
    are parameters. */
module ReadmeSync {
  import opened Wrappers
  import opened Text

  // ---------------------------------------------------------------------
  // Summarising pytest output
  // ---------------------------------------------------------------------

  const PassedToken := "PASSED"
  const FailedToken := "FAILED"
  const XfailToken := "XFAIL"
  const SkippedToken := "SKIPPED"

  /** The pytest id prefix of a test module under `tests`, with `sep` as
      the path separator; `file` is the module name without ".py". */
  function TestId(sep: char, file: string): string {
    "tests" + [sep] + file + ".py::"
  }

  /** Test-id prefixes of the two suites, forward- and backslash forms. */
  const SignupPath := TestId('/', "test_signup")
  const SignupWindowsPath := TestId('\\', "test_signup")
  const VerificationPath := TestId('/', "test_signup_verification")
  const VerificationWindowsPath := TestId('\\', "test_signup_verification")

  /** Execution time reported when the summary line carries none. */
  const NotAvailable := "N/A"

  /** The statistics dictionary built from one pytest run. */
  datatype TestStats = TestStats(
    total: nat,
    passed: nat,
    failed: nat,
    xfailed: nat,
    skipped: nat,
    executionTime: string,
    signupTests: nat,
    verificationTests: nat,
    timestamp: string)

  /** The character class `[\d.]`, with ASCII digits. */
  predicate IsTimeChar(c: char) {
    IsDigit(c) || c == '.'
  }

  /** Length of the longest prefix of `s` drawn from `[\d.]`. */
  function TimeRun(s: string): (n: nat)
    ensures n <= |s|
    ensures forall i :: 0 <= i < n ==> IsTimeChar(s[i])
    ensures n < |s| ==> !IsTimeChar(s[n])
    decreases |s|
  {
    if |s| > 0 && IsTimeChar(s[0]) then 1 + TimeRun(s[1..]) else 0
  }

  /** The pattern `in ([\d.]+)s` matches at the start of `w` with group `t`.
      The group is necessarily the whole run of `[\d.]` after "in ",
      because the "s" that must follow is not in the class. */
  predicate TimeMatch(w: string, t: string) {
    |t| > 0 && (forall i :: 0 <= i < |t| ==> IsTimeChar(t[i])) && "in " + t + "s" <= w
  }

  /** The pattern's group when it matches at the start of `w`. */
  function TimeAt(w: string): (r: Option<string>)
    ensures r.Some? ==> TimeMatch(w, r.value)
  {
    if |w| >= 3 && w[..3] == "in " then
      var n := TimeRun(w[3..]);
      if n > 0 && 3 + n < |w| && w[3 + n] == 's' then
        assert w[..3 + n + 1] == "in " + w[3..3 + n] + "s";
        Some(w[3..3 + n])
      else None
    else None
  }

  /** A match at the start of `w` is the one TimeAt reports. */
  lemma TimeAtFindsMatch(w: string, t: string)
    requires TimeMatch(w, t)
    ensures TimeAt(w) == Some(t)
  {
    var m := "in " + t + "s";
    assert w[..|m|] == m;
    assert w[..3] == m[..3] == "in ";
    var n := TimeRun(w[3..]);
    forall i | 0 <= i < |t|
      ensures w[3..][i] == t[i]
    {
      assert w[3 + i] == m[3 + i];
    }
    assert w[3..][|t|] == w[3 + |t|] == m[3 + |t|] == 's';
    assert n == |t|;
    assert w[3..3 + n] == t;
  }

  lemma NoTimeAt(w: string)
    requires TimeAt(w).None?
    ensures forall t :: !TimeMatch(w, t)
  {
    forall t | TimeMatch(w, t)
      ensures false
    {
      TimeAtFindsMatch(w, t);
    }
  }

  /** No match of the time pattern starts at an index in [lo, hi). */
  ghost predicate NoTimeIn(s: string, lo: nat, hi: nat) {
    forall k, t :: lo <= k < hi && k <= |s| ==> !TimeMatch(s[k..], t)
  }

  /** `re.search(r"in ([\d.]+)s", s)` started at index `i`: the group of
      the leftmost match, or None when there is no match. */
  function SearchTime(s: string, i: nat): (r: Option<string>)
    requires i <= |s|
    ensures r.Some? ==> |r.value| > 0 && IsTimeChar(r.value[0])
    decreases |s| - i
  {
    match TimeAt(s[i..])
    case Some(t) => Some(t)
    case None => if i == |s| then None else SearchTime(s, i + 1)
  }

  /** SearchTime reports the group of the leftmost match at or after `i`,
      and None exactly when no index from `i` on starts a match. */
  lemma {:induction false} SearchTimeFindsLeftmost(s: string, i: nat)
    requires i <= |s|
    ensures SearchTime(s, i).Some? ==>
              exists k :: i <= k <= |s| && TimeMatch(s[k..], SearchTime(s, i).value) && NoTimeIn(s, i, k)
    ensures SearchTime(s, i).None? ==> NoTimeIn(s, i, |s| + 1)
    decreases |s| - i
  {
    match TimeAt(s[i..])
    case Some(t) =>
      assert TimeMatch(s[i..], t) && NoTimeIn(s, i, i);
    case None =>
      NoTimeAt(s[i..]);
      if i < |s| {
        SearchTimeFindsLeftmost(s, i + 1);
        if SearchTime(s, i + 1).Some? {
          var k :| i + 1 <= k <= |s| && TimeMatch(s[k..], SearchTime(s, i + 1).value) && NoTimeIn(s, i + 1, k);
          assert NoTimeIn(s, i, k);
        }
      }
  }

  /** `a or b` on two counts, as Python evaluates it. */
  function OrElse(a: nat, b: nat): (r: nat)
    ensures r == a || r == b
    ensures r != 0 <==> a != 0 || b != 0
    ensures a != 0 ==> r == a
  {
    if a != 0 then a else b
  }

  /** Summarises pytest's verbose output. The clock reading that Python
      takes inside the function is the `timestamp` parameter. */
  function ParseTestResults(output: string, timestamp: string): (r: TestStats)
    ensures r.total == r.passed + r.failed + r.xfailed + r.skipped
    ensures r.passed == Occurrences(PassedToken, output)
    ensures r.failed == Occurrences(FailedToken, output)
    ensures r.xfailed == Occurrences(XfailToken, output)
    ensures r.skipped == Occurrences(SkippedToken, output)
    ensures r.executionTime == NotAvailable <==> NoTimeIn(output, 0, |output| + 1)
    ensures r.executionTime != NotAvailable ==>
              exists k :: 0 <= k <= |output| && TimeMatch(output[k..], r.executionTime) && NoTimeIn(output, 0, k)
    ensures Contains(output, SignupPath) ==> r.signupTests == CountMatches(SignupPath, output)
    ensures !Contains(output, SignupPath) ==> r.signupTests == CountMatches(SignupWindowsPath, output)
    ensures Contains(output, VerificationPath) ==> r.verificationTests == CountMatches(VerificationPath, output)
    ensures !Contains(output, VerificationPath) ==>
              r.verificationTests == CountMatches(VerificationWindowsPath, output)
    ensures r.timestamp == timestamp
  {
    HeadUniqueIsSelfDisjoint(PassedToken);
    HeadUniqueIsSelfDisjoint(FailedToken);
    HeadUniqueIsSelfDisjoint(XfailToken);
    HeadUniqueIsSelfDisjoint(SkippedToken);
    CountMatchesIsOccurrences(PassedToken, output);
    CountMatchesIsOccurrences(FailedToken, output);
    CountMatchesIsOccurrences(XfailToken, output);
    CountMatchesIsOccurrences(SkippedToken, output);
    CountMatchesPositive(SignupPath, output);
    CountMatchesPositive(VerificationPath, output);
    var passed := CountMatches(PassedToken, output);
    var failed := CountMatches(FailedToken, output);
    var xfailed := CountMatches(XfailToken, output);
    var skipped := CountMatches(SkippedToken, output);
    var time := SearchTime(output, 0);
    SearchTimeFindsLeftmost(output, 0);
    assert !IsTimeChar(NotAvailable[0]);
    TestStats(
      total := passed + failed + xfailed + skipped,
      passed := passed,
      failed := failed,
      xfailed := xfailed,
      skipped := skipped,
      executionTime := time.GetOr(NotAvailable),
      signupTests := OrElse(CountMatches(SignupPath, output), CountMatches(SignupWindowsPath, output)),
      verificationTests :=
        OrElse(CountMatches(VerificationPath, output), CountMatches(VerificationWindowsPath, output)),
      timestamp := timestamp)
  }

  /** Empty output: every count is zero and no time is found. */
  lemma EmptyOutputStats(timestamp: string)
    ensures ParseTestResults("", timestamp) == TestStats(0, 0, 0, 0, 0, NotAvailable, 0, 0, timestamp)
  {
  }

  /** A verification-suite test id never counts as a signup-suite test, in
      either path form, whatever follows it. */
  lemma VerificationIdIsNotSignupId(rest: string)
    ensures CountMatches(SignupPath, VerificationPath + rest) == CountMatches(SignupPath, rest)
    ensures CountMatches(SignupWindowsPath, VerificationWindowsPath + rest)
         == CountMatches(SignupWindowsPath, rest)
  {
    NoSignupStartInVerification('/');
    SkipUnmatched(SignupPath, VerificationPath, 0, rest);
    assert VerificationPath[0..] == VerificationPath;
    NoSignupStartInVerification('\\');
    SkipUnmatched(SignupWindowsPath, VerificationWindowsPath, 0, rest);
    assert VerificationWindowsPath[0..] == VerificationWindowsPath;
  }

  // With either separator the two ids share "tests?test_signup" and then
  // differ at index 17 ('.' against '_'); 't' starts only the indices 0,
  // 3, 6, 9 and 26 of the verification id, and each of those disagrees
  // with the signup id within a few characters.

  lemma NoSignupStartInVerification(sep: char)
    requires sep != 't'
    ensures NoStartIn(TestId(sep, "test_signup"), TestId(sep, "test_signup_verification"),
                      0, |TestId(sep, "test_signup_verification")|)
  {
    var p, v := TestId(sep, "test_signup"), TestId(sep, "test_signup_verification");
    NoSignupStartInHead(sep);
    NoSignupStartInMiddle(sep);
    NoSignupStartInTail(sep);
    NoStartInJoin(p, v, 0, 6, 10);
    NoStartInJoin(p, v, 0, 10, |v|);
  }

  lemma NoSignupStartInHead(sep: char)
    requires sep != 't'
    ensures NoStartIn(TestId(sep, "test_signup"), TestId(sep, "test_signup_verification"), 0, 6)
  {
    var p, v := TestId(sep, "test_signup"), TestId(sep, "test_signup_verification");
    assert p == "tests" + [sep] + "test_signup.py::";
    assert v == "tests" + [sep] + "test_signup_verification.py::";
    NoStartAt(p, v, 0, 17);
    NoStartAt(p, v, 1, 0); NoStartInJoin(p, v, 0, 1, 2);
    NoStartAt(p, v, 2, 0); NoStartInJoin(p, v, 0, 2, 3);
    NoStartAt(p, v, 3, 1); NoStartInJoin(p, v, 0, 3, 4);
    NoStartAt(p, v, 4, 0); NoStartInJoin(p, v, 0, 4, 5);
    NoStartAt(p, v, 5, 0); NoStartInJoin(p, v, 0, 5, 6);
  }

  lemma NoSignupStartInMiddle(sep: char)
    ensures NoStartIn(TestId(sep, "test_signup"), TestId(sep, "test_signup_verification"), 6, 10)
  {
    var p, v := TestId(sep, "test_signup"), TestId(sep, "test_signup_verification");
    assert p == "tests" + [sep] + "test_signup.py::";
    assert v == "tests" + [sep] + "test_signup_verification.py::";
    NoStartAt(p, v, 6, 4);
    NoStartAt(p, v, 7, 0); NoStartInJoin(p, v, 6, 7, 8);
    NoStartAt(p, v, 8, 0); NoStartInJoin(p, v, 6, 8, 9);
    NoStartAt(p, v, 9, 1); NoStartInJoin(p, v, 6, 9, 10);
  }

  lemma NoSignupStartInTail(sep: char)
    ensures NoStartIn(TestId(sep, "test_signup"), TestId(sep, "test_signup_verification"),
                      10, |TestId(sep, "test_signup_verification")|)
  {
    var p, v := TestId(sep, "test_signup"), TestId(sep, "test_signup_verification");
    assert p == "tests" + [sep] + "test_signup.py::";
    assert v == "tests" + [sep] + "test_signup_verification.py::";
    HeadAbsent(p, v, 10, 26);
    NoStartAt(p, v, 26, 1); NoStartInJoin(p, v, 10, 26, 27);
    HeadAbsent(p, v, 27, |v|); NoStartInJoin(p, v, 10, 27, |v|);
  }

  // ---------------------------------------------------------------------
  // Rendering the results section
  // ---------------------------------------------------------------------

  /** The heading that opens the section, and that the splicer looks for. */
  const Header := "## \U{1F4C8} Test Execution Results"
  const CheckMark := "\U{2705}"
  const WarningSign := "\U{26A0}\U{FE0F}"

  /** The section from its header through "  ✅ " before the passed count. */
  function SectionOpening(stats: TestStats): (r: string)
    ensures Header <= r
  {
    var r := Header + "\n\n### Latest Test Run (" + stats.timestamp + ")\n```\n"
      + Repeat('=', 26) + " test session starts " + Repeat('=', 26) + "\n"
      + "collected " + NatToString(stats.total) + " items\n\n"
      + "test_signup.py" + Repeat(' ', 37) + "19 tests\n"
      + "  " + CheckMark + " ";
    assert r[..|Header|] == Header;
    r
  }

  /** From after the xfailed line through the "- " of the total line. */
  function SectionSummary(stats: TestStats): string {
    "\n\ntest_signup_verification.py" + Repeat(' ', 24) + "10 tests\n"
      + "  " + CheckMark + " 10 passed\n\n"
      + Repeat('=', 20) + " " + NatToString(stats.passed) + " passed, " + NatToString(stats.xfailed)
      + " xfailed in " + stats.executionTime + "s " + Repeat('=', 20) + "\n```\n\n"
      + "### Performance Metrics\n- "
  }

  /** The metric lines after the total. */
  function SectionMetrics(stats: TestStats): string {
    "\n- **Execution Time**: ~" + stats.executionTime + " seconds\n"
      + "- **Parallel Workers**: 12\n"
      + "- **Retry Attempts**: Up to 3 per test\n"
      + "- **CI/CD Pipeline**: ~15-20 seconds total\n"
      + "- **Last Updated**: " + stats.timestamp
  }

  /** The Markdown section for one run. Only total, passed, xfailed, the
      execution time and the timestamp are rendered; the per-suite lines
      are fixed text. */
  function ResultsSection(stats: TestStats): (r: string)
    ensures Header <= r
    ensures Contains(r, NatToString(stats.passed) + " passed")
    ensures Contains(r, NatToString(stats.xfailed) + " xfailed (security issues documented)")
    ensures Contains(r, "**Total Tests**: " + NatToString(stats.total))
  {
    var opening, body := SectionOpening(stats), SectionBody(stats);
    ContainsAfter(opening, body, NatToString(stats.passed) + " passed");
    ContainsAfter(opening, body, NatToString(stats.xfailed) + " xfailed (security issues documented)");
    ContainsAfter(opening, body, "**Total Tests**: " + NatToString(stats.total));
    PrefixExtended(Header, opening, body);
    opening + body
  }

  /** Everything after the opening: the passed and xfailed counts, the
      summary, the total and the metrics. */
  function SectionBody(stats: TestStats): (r: string)
    ensures Contains(r, NatToString(stats.passed) + " passed")
    ensures Contains(r, NatToString(stats.xfailed) + " xfailed (security issues documented)")
    ensures Contains(r, "**Total Tests**: " + NatToString(stats.total))
  {
    var passedLine := NatToString(stats.passed) + " passed";
    var between := "\n  " + WarningSign + " ";
    var xfailedLine := NatToString(stats.xfailed) + " xfailed (security issues documented)";
    var summary := SectionSummary(stats);
    var totalLine := "**Total Tests**: " + NatToString(stats.total);
    var metrics := SectionMetrics(stats);
    var totalTail := totalLine + metrics;
    var xfailedTail := xfailedLine + (summary + totalTail);
    ContainsHead(passedLine, between + xfailedTail);
    ContainsHead(xfailedLine, summary + totalTail);
    ContainsAfter(between, xfailedTail, xfailedLine);
    ContainsAfter(passedLine, between + xfailedTail, xfailedLine);
    ContainsHead(totalLine, metrics);
    ContainsAfter(summary, totalTail, totalLine);
    ContainsAfter(xfailedLine, summary + totalTail, totalLine);
    ContainsAfter(between, xfailedTail, totalLine);
    ContainsAfter(passedLine, between + xfailedTail, totalLine);
    passedLine + (between + xfailedTail)
  }

  /** The failure, skip and per-suite counts do not reach the section (the
      status emoji the source computes is discarded). */
  lemma SectionIgnoresUnrenderedCounts(stats: TestStats, failed: nat, skipped: nat, signup: nat, verification: nat)
    ensures ResultsSection(stats)
         == ResultsSection(stats.(failed := failed, skipped := skipped,
                                  signupTests := signup, verificationTests := verification))
  {
  }

  // ---------------------------------------------------------------------
  // Splicing the section into the README
  // ---------------------------------------------------------------------

  /** The lookahead that ends a section: the next level-2 heading. */
  const NextHeading := "\n## "

  /** Where the lazy `.*?(?=\n## |\Z)` stops when started at index `i`: the
      first index at or after `i` where "\n## " begins, else the end. */
  function SectionEnd(content: string, i: nat): (j: nat)
    requires i <= |content|
    ensures i <= j <= |content|
    ensures j == |content| || OccursAt(NextHeading, content, j)
    ensures forall k :: i <= k < j ==> !OccursAt(NextHeading, content, k)
    decreases |content| - i
  {
    if i == |content| || OccursAt(NextHeading, content, i) then i
    else SectionEnd(content, i + 1)
  }

  /** `re.sub` of the section pattern, resumed at index `i`: each match
      (the header up to its SectionEnd) becomes `section`, taken literally;
      every other character is copied. */
  function SpliceFrom(content: string, section: string, i: nat): string
    requires i <= |content|
    decreases |content| - i
  {
    if i == |content| then []
    else if OccursAt(Header, content, i) then
      section + SpliceFrom(content, section, SectionEnd(content, i + |Header|))
    else [content[i]] + SpliceFrom(content, section, i + 1)
  }

  /** The README text after replacing every results section. Without a
      header the text is returned as it was: nothing is appended. */
  function ReplaceSection(content: string, section: string): (r: string)
    ensures !Contains(content, Header) ==> r == content
    ensures Contains(content, Header) ==> Contains(r, section)
  {
    var r := SpliceFrom(content, section, 0);
    assert !Contains(content, Header) ==> r == content by {
      if !Contains(content, Header) {
        SpliceCopies(content, section, 0, |content|);
        assert content[0..|content|] == content;
      }
    }
    assert Contains(content, Header) ==> Contains(r, section) by {
      if Contains(content, Header) {
        var i := FirstOccurrence(Header, content);
        var rest := SpliceFrom(content, section, SectionEnd(content, i + |Header|));
        SpliceCopies(content, section, 0, i);
        assert r == content[..i] + (section + rest);
        ContainsHead(section, rest);
        ContainsAfter(content[..i], section + rest, section);
      }
    }
    r
  }

  /** Text containing no header is copied unchanged. */
  lemma {:induction false} SpliceCopies(content: string, section: string, i: nat, k: nat)
    requires i <= k <= |content|
    requires forall m :: i <= m < k ==> !OccursAt(Header, content, m)
    ensures SpliceFrom(content, section, i) == content[i..k] + SpliceFrom(content, section, k)
    decreases k - i
  {
    if i < k {
      assert !OccursAt(Header, content, i);
      assert SpliceFrom(content, section, i) == [content[i]] + SpliceFrom(content, section, i + 1);
      SpliceCopies(content, section, i + 1, k);
      assert content[i..k] == [content[i]] + content[i + 1..k];
    } else {
      assert content[i..k] == [];
    }
  }

  /** The first section is replaced, text before it is kept, and splicing
      resumes where the section ends: at the next "\n## " or the end. */
  lemma ReplaceFirstSection(content: string, section: string, i: nat)
    requires OccursAt(Header, content, i)
    requires forall m :: 0 <= m < i ==> !OccursAt(Header, content, m)
    ensures ReplaceSection(content, section)
         == content[..i] + section + SpliceFrom(content, section, SectionEnd(content, i + |Header|))
  {
    SpliceCopies(content, section, 0, i);
  }

  /** With a single header in the text, exactly its section is replaced:
      what precedes the header and what follows from the next "\n## " on
      are unchanged. */
  lemma ReplaceOnlySection(content: string, section: string, i: nat)
    requires OccursAt(Header, content, i)
    requires forall m :: 0 <= m <= |content| && m != i ==> !OccursAt(Header, content, m)
    ensures ReplaceSection(content, section)
         == content[..i] + section + content[SectionEnd(content, i + |Header|)..]
  {
    var j := SectionEnd(content, i + |Header|);
    ReplaceFirstSection(content, section, i);
    SpliceCopies(content, section, j, |content|);
    assert content[j..|content|] == content[j..];
  }

  /** What reading README.md as UTF-8 gave: no such file, another failure
      (bytes that are not UTF-8, no permission, a directory of that name),
      or the text. */
  datatype ReadmeFile = Missing | Unreadable | Present(content: string)

  /** What `update_readme` reports, and the text it hands to the write. */
  datatype ReadmeUpdate = ReadmeUpdate(success: bool, written: Option<string>)

  /** `update_readme` with the file system done by the caller: `readme` is
      what the read gave and `writeOk` whether writing the result back
      succeeded. Every failure is caught and reported as False; only a
      README that was read is rewritten. */
  function UpdateReadme(readme: ReadmeFile, section: string, writeOk: bool): (r: ReadmeUpdate)
    ensures r.success <==> readme.Present? && writeOk
    ensures r.written.Some? <==> readme.Present?
    ensures readme.Present? ==> r.written == Some(ReplaceSection(readme.content, section))
    ensures readme.Present? && !Contains(readme.content, Header) ==> r.written == Some(readme.content)
  {
    match readme
    case Present(content) =>
      ReadmeUpdate(writeOk, Some(ReplaceSection(content, section)))
    case _ => ReadmeUpdate(false, None)
  }
}
