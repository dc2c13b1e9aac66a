/** The current action (dist/index.js): validation of the environment at load
    time, then `Main`, which renders the three sections, joins them into one
    report with an optional attribution footer, posts the report as a comment,
    and finally applies the outdated gate and then the vulnerability gate. */
module Action {
  import opened Wrappers
  import opened Text
  import opened Json
  import opened Context
  import opened Tables
  import opened Audit
  import opened Outdated
  import opened Depcheck

  /** The `comment-pr`, `elide-attribution`, `fail-on-outdated` and
      `fail-on-vulnerability` inputs, each true when given as `'true'`. */
  datatype Inputs = Inputs(
    commentPr: bool,
    elideAttribution: bool,
    failOnOutdated: bool,
    failOnVulnerability: bool)

  // ---------------------------------------------------------------------
  // Validation at load time
  // ---------------------------------------------------------------------

  /** The event must be `pull_request`, then the repository must be set, then
      the token must be set; the first check that fails gives the message. */
  function Validate(env: Env): (check: Check)
    ensures check.Pass? <==> env.eventName == Some("pull_request") && Truthy(env.repository) && Truthy(env.token)
    ensures env.eventName != Some("pull_request") ==> check == Fail(EVENT_MESSAGE)
    ensures env.eventName == Some("pull_request") && !Truthy(env.repository) ==> check == Fail(REPOSITORY_MESSAGE)
    ensures env.eventName == Some("pull_request") && Truthy(env.repository) && !Truthy(env.token) ==> check == Fail(TOKEN_MESSAGE)
  {
    if env.eventName != Some("pull_request") then Fail(EVENT_MESSAGE)
    else if !Truthy(env.repository) then Fail(REPOSITORY_MESSAGE)
    else if !Truthy(env.token) then Fail(TOKEN_MESSAGE)
    else Pass
  }

  // ---------------------------------------------------------------------
  // The report
  // ---------------------------------------------------------------------

  const FOOTER_OPEN := "<p align=\"right\">"
  const FOOTER_CLOSE := "</p>"
  const ATTRIBUTION := "Generated by :robot: "
    + "<a href=\"https://github.com/mhoc/npm-audit-action\">"
    + "@mhoc/npm-audit-action</a> against "

  /** An empty line and the opening tag of the right-aligned paragraph. */
  const FOOTER_HEAD := "\n" + FOOTER_OPEN + "\n"

  /** The line naming the action and the commit, `GITHUB_SHA` printing as
      `undefined` when it is not set. */
  function CommitLine(sha: Option<string>): string
  {
    ATTRIBUTION + Show(sha)
  }

  /** The rest of the footer: the commit line and the closing tag. */
  function FooterTail(sha: Option<string>): string
  {
    CommitLine(sha) + "\n" + FOOTER_CLOSE + "\n"
  }

  /** The three sections in the order `Main` awaits them, then the footer
      unless attribution is elided. */
  function Report(audit: string, outdated: string, depcheck: string, elideAttribution: bool, sha: Option<string>): string
  {
    if elideAttribution then audit + outdated + depcheck
    else audit + outdated + depcheck + FOOTER_HEAD + FooterTail(sha)
  }

  /** The report `Main` builds for reports the audit section can render. */
  function ReportOf(env: Env, inputs: Inputs, audit: AuditReport, outdated: OutdatedReport, depcheck: DepcheckReport): string
    requires HasFindings(audit.advisories)
  {
    Report(JoinLines(AuditLines(audit)), JoinLines(OutdatedLines(outdated)), JoinLines(DepcheckLines(depcheck)),
           inputs.elideAttribution, env.sha)
  }

  // ---------------------------------------------------------------------
  // The gates
  // ---------------------------------------------------------------------

  const OUTDATED_SUFFIX := " package(s) are outdated"
  const VULNERABILITY_SUFFIX := " vulerabilitie(s) were found " + "in this project's dependencies"

  function OutdatedMessage(outdated: nat): string
  {
    NatToString(outdated) + OUTDATED_SUFFIX
  }

  function VulnerabilityMessage(vulnerabilities: nat): string
  {
    NatToString(vulnerabilities) + VULNERABILITY_SUFFIX
  }

  /** The outdated gate is checked first; only when it lets the run through is
      the vulnerability gate checked. */
  function Gate(inputs: Inputs, outdated: nat, vulnerabilities: nat): (status: Status)
    ensures status.Crashed? == false
    ensures status == Passed <==>
      !(inputs.failOnOutdated && outdated > 0) && !(inputs.failOnVulnerability && vulnerabilities > 0)
  {
    if inputs.failOnOutdated && outdated > 0 then Failed(OutdatedMessage(outdated))
    else if inputs.failOnVulnerability && vulnerabilities > 0 then Failed(VulnerabilityMessage(vulnerabilities))
    else Passed
  }

  // ---------------------------------------------------------------------
  // Main
  // ---------------------------------------------------------------------

  /** `Main`'s report: the sections appended in order, then the footer. */
  method Compose(audit: string, outdated: string, depcheck: string, elideAttribution: bool, sha: Option<string>)
    returns (markdown: string)
    ensures markdown == Report(audit, outdated, depcheck, elideAttribution, sha)
  {
    markdown := "";
    markdown := markdown + audit;
    assert markdown == audit;
    markdown := markdown + outdated;
    markdown := markdown + depcheck;
    if !elideAttribution {
      markdown := markdown + FOOTER_HEAD;
      markdown := markdown + FooterTail(sha);
    }
  }

  /** Load-time validation followed by `Main`. The three tool outputs are the
      already-parsed JSON the tools would print. */
  method Run(env: Env, inputs: Inputs, audit: AuditReport, outdated: OutdatedReport, depcheck: DepcheckReport)
    returns (result: RunResult)
    ensures Validate(env).Fail? ==> result == RunResult([], None, None, Failed(Validate(env).message))
    ensures Validate(env).Pass? && !HasFindings(audit.advisories) ==>
      result == RunResult([NpmAudit], Some(AuditOutputs(audit)), None, Crashed(MissingFindings))
    ensures Validate(env).Pass? && HasFindings(audit.advisories) ==>
      && result.invoked == [NpmAudit, NpmOutdated, Depcheck]
      && result.outputs == Some(AuditOutputs(audit))
      && result.comment == (if inputs.commentPr then
           var (owner, repo) := OwnerAndRepo(env.repository.value);
           Some(Comment(owner, repo, env.prNumber, ReportOf(env, inputs, audit, outdated, depcheck)))
         else None)
      && result.status == Gate(inputs, |outdated|, TotalVulnerabilities(audit.vulnerabilities))
  {
    var check := Validate(env);
    if check.Fail? {
      return RunResult([], None, None, Failed(check.message));
    }
    var outputs, auditSection := RunAudit(audit);
    if auditSection.Failure? {
      return RunResult([NpmAudit], Some(outputs), None, Crashed(auditSection.error));
    }
    var outdatedSection := RunOutdated(outdated);
    var depcheckMarkdown := RunDepcheck(depcheck);
    var markdown := Compose(auditSection.value.markdown, outdatedSection.markdown, depcheckMarkdown,
                            inputs.elideAttribution, env.sha);
    var comment := None;
    if inputs.commentPr {
      var (owner, repo) := OwnerAndRepo(env.repository.value);
      comment := Some(Comment(owner, repo, env.prNumber, markdown));
    }
    var status := Passed;
    if inputs.failOnOutdated && outdatedSection.outdated > 0 {
      status := Failed(OutdatedMessage(outdatedSection.outdated));
    } else if inputs.failOnVulnerability && auditSection.value.vulnerabilities > 0 {
      status := Failed(VulnerabilityMessage(auditSection.value.vulnerabilities));
    }
    result := RunResult([NpmAudit, NpmOutdated, Depcheck], Some(outputs), comment, status);
  }

  // ---------------------------------------------------------------------
  // Properties of a run
  // ---------------------------------------------------------------------

  /** A message that starts with a count is read back as that count: the count
      ends at the first character that is not a digit. */
  lemma {:induction false} CountPrefix(a: nat, x: string, b: nat, y: string)
    requires x != [] && !IsDigit(x[0]) && y != [] && !IsDigit(y[0])
    requires NatToString(a) + x == NatToString(b) + y
    ensures a == b && x == y
  {
    var s, t := NatToString(a), NatToString(b);
    var w := s + x;
    assert forall k :: 0 <= k < |s| ==> IsDigit(w[k]);
    assert !IsDigit(w[|s|]);
    assert forall k :: 0 <= k < |t| ==> IsDigit(w[k]);
    assert |t| < |w| && !IsDigit(w[|t|]);
    assert |s| == |t|;
    assert s == w[..|s|] && t == w[..|t|];
    NatToStringInjective(a, b);
    assert x == w[|s|..] && y == w[|t|..];
  }

  /** The two gate messages never coincide, whatever the counts. */
  lemma MessagesDiffer(outdated: nat, vulnerabilities: nat)
    ensures OutdatedMessage(outdated) != VulnerabilityMessage(vulnerabilities)
  {
    var s, t := NatToString(outdated), NatToString(vulnerabilities);
    var m, n := s + OUTDATED_SUFFIX, t + VULNERABILITY_SUFFIX;
    if |s| == |t| {
      assert m[|s| + 1] == OUTDATED_SUFFIX[1] == 'p';
      assert n[|s| + 1] == VULNERABILITY_SUFFIX[1] == 'v';
    } else if |s| < |t| {
      assert m[|s|] == ' ' && IsDigit(n[|s|]);
    } else {
      assert IsDigit(m[|t|]) && n[|t|] == ' ';
    }
  }

  /** The outdated failure is reported exactly when outdated packages fail the
      run; the vulnerability failure exactly when that gate is on, there are
      vulnerabilities and the outdated gate did not fire first. Each message
      carries its count. */
  lemma GateOrder(inputs: Inputs, outdated: nat, vulnerabilities: nat)
    ensures Gate(inputs, outdated, vulnerabilities) == Failed(OutdatedMessage(outdated))
      <==> inputs.failOnOutdated && outdated > 0
    ensures Gate(inputs, outdated, vulnerabilities) == Failed(VulnerabilityMessage(vulnerabilities))
      <==> !(inputs.failOnOutdated && outdated > 0) && inputs.failOnVulnerability && vulnerabilities > 0
  {
    MessagesDiffer(outdated, vulnerabilities);
  }

  /** The report starts with the audit section, then the outdated section,
      then the hygiene section. */
  lemma ReportOrder(audit: string, outdated: string, depcheck: string, elide: bool, sha: Option<string>)
    ensures var body := Report(audit, outdated, depcheck, elide, sha);
      var n := |audit| + |outdated| + |depcheck|;
      n <= |body|
      && body[..|audit|] == audit
      && body[|audit|..|audit| + |outdated|] == outdated
      && body[|audit| + |outdated|..n] == depcheck
  {
    var body := Report(audit, outdated, depcheck, elide, sha);
    var sections := audit + outdated + depcheck;
    assert body[..|sections|] == sections;
    assert sections[..|audit|] == audit;
    assert sections[|audit|..|audit| + |outdated|] == outdated;
    assert sections[|audit| + |outdated|..] == depcheck;
  }

  /** The hygiene section always ends by closing its last `<details>` block. */
  lemma DepcheckEnding(depcheck: DepcheckReport)
    ensures var text := JoinLines(DepcheckLines(depcheck));
      |DETAILS_CLOSE + "\n"| <= |text| && text[|text| - |DETAILS_CLOSE + "\n"|..] == DETAILS_CLOSE + "\n"
  {
    var lines := DepcheckLines(depcheck);
    assert lines == lines[..|lines| - 1] + [DETAILS_CLOSE];
    JoinLinesSuffix(lines[..|lines| - 1], DETAILS_CLOSE);
  }

  lemma SuffixOfAppend(a: string, b: string, tail: string)
    requires |tail| <= |b| && b[|b| - |tail|..] == tail
    ensures |tail| <= |a + b| && (a + b)[|a + b| - |tail|..] == tail
  {
    assert (a + b)[|a + b| - |tail|..] == b[|b| - |tail|..];
  }

  /** With attribution elided the report ends as the hygiene section does,
      closing its last `<details>` block (see `DepcheckEnding`). */
  lemma ElidedEnding(audit: string, outdated: string, depcheck: string, sha: Option<string>)
    requires |DETAILS_CLOSE + "\n"| <= |depcheck|
    requires depcheck[|depcheck| - |DETAILS_CLOSE + "\n"|..] == DETAILS_CLOSE + "\n"
    ensures var body := Report(audit, outdated, depcheck, true, sha);
      var close := DETAILS_CLOSE + "\n";
      |close| <= |body| && body[|body| - |close|..] == close
  {
    SuffixOfAppend(audit + outdated, depcheck, DETAILS_CLOSE + "\n");
  }

  /** Without elision the report ends with the footer naming the commit. */
  lemma AttributedEnding(audit: string, outdated: string, depcheck: string, sha: Option<string>)
    ensures var body := Report(audit, outdated, depcheck, false, sha);
      var tail := FooterTail(sha);
      |tail| <= |body| && body[|body| - |tail|..] == tail
  {
    var tail := FooterTail(sha);
    assert tail[|tail| - |tail|..] == tail;
    SuffixOfAppend(audit + outdated + depcheck + FOOTER_HEAD, tail, tail);
  }

  predicate EndsWith(s: string, t: string) {
    |t| <= |s| && s[|s| - |t|..] == t
  }

  /** The last `n` characters of a text are those of any longer ending. */
  lemma EndOfEnding(s: string, t: string, n: nat)
    requires EndsWith(s, t) && n <= |t|
    ensures n <= |s| && s[|s| - n..] == t[|t| - n..]
  {
    assert s[|s| - n..] == s[|s| - |t|..][|t| - n..];
  }

  /** The closing tags of a block and of the footer: the shorter is not an
      ending of the longer. */
  lemma ClosingTags()
    ensures |FOOTER_CLOSE + "\n"| <= |DETAILS_CLOSE + "\n"|
    ensures !EndsWith(DETAILS_CLOSE + "\n", FOOTER_CLOSE + "\n")
  {
    var details := DETAILS_CLOSE + "\n";
    var close := FOOTER_CLOSE + "\n";
    assert details[|details| - |close|..][0] == 'i' && close[0] == '<';
  }

  lemma FooterTailEnding(sha: Option<string>)
    ensures EndsWith(FooterTail(sha), FOOTER_CLOSE + "\n")
  {
    var tail := FooterTail(sha);
    var close := FOOTER_CLOSE + "\n";
    assert tail == CommitLine(sha) + "\n" + close;
    assert tail[|tail| - |close|..] == close;
  }

  /** When the hygiene section closes its last `<details>` block, as
      `DepcheckEnding` shows it always does, the report ends with the
      footer's closing tag exactly when attribution is not elided. */
  lemma FooterIffAttributed(audit: string, outdated: string, depcheck: string, elide: bool, sha: Option<string>)
    requires EndsWith(depcheck, DETAILS_CLOSE + "\n")
    ensures EndsWith(Report(audit, outdated, depcheck, elide, sha), FOOTER_CLOSE + "\n") <==> !elide
  {
    var body := Report(audit, outdated, depcheck, elide, sha);
    var close := FOOTER_CLOSE + "\n";
    var details := DETAILS_CLOSE + "\n";
    if elide {
      ElidedEnding(audit, outdated, depcheck, sha);
      ClosingTags();
      EndOfEnding(body, details, |close|);
    } else {
      AttributedEnding(audit, outdated, depcheck, sha);
      FooterTailEnding(sha);
      EndOfEnding(body, FooterTail(sha), |close|);
    }
  }
}
