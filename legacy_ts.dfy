/** The earlier action (index.ts): the audit and outdated tables only, with
    the `elide` input truncating both tables, the token checked only when a
    comment is to be posted, and every step run from a child-process callback. */
module LegacyTs {
  import opened Wrappers
  import opened Text
  import opened Json
  import opened Context
  import opened Tables
  import opened Audit
  import Action

  // ---------------------------------------------------------------------
  // Validation
  // ---------------------------------------------------------------------

  /** The event must be `pull_request`, then the repository must be set. The
      token is not looked at here. */
  function ValidateLegacy(env: Env): (check: Check)
    ensures check.Pass? <==> env.eventName == Some("pull_request") && Truthy(env.repository)
    ensures env.eventName != Some("pull_request") ==> check == Fail(EVENT_MESSAGE)
    ensures env.eventName == Some("pull_request") && !Truthy(env.repository) ==> check == Fail(REPOSITORY_MESSAGE)
  {
    if env.eventName != Some("pull_request") then Fail(EVENT_MESSAGE)
    else if !Truthy(env.repository) then Fail(REPOSITORY_MESSAGE)
    else Pass
  }

  /** The current action refuses to start without a token; this one starts,
      and only needs the token once it is about to comment. Otherwise the two
      validations agree, message for message. */
  lemma TokenCheckMoved(env: Env)
    ensures Action.Validate(env).Pass? ==> ValidateLegacy(env).Pass?
    ensures ValidateLegacy(env).Pass? && !Truthy(env.token) ==> Action.Validate(env) == Fail(TOKEN_MESSAGE)
    ensures ValidateLegacy(env).Fail? ==> Action.Validate(env) == ValidateLegacy(env)
  {
  }

  // ---------------------------------------------------------------------
  // Row truncation
  // ---------------------------------------------------------------------

  /** How many of `n` rows the loops render: all of them when `elide` is 0;
      otherwise the loop breaks at the first index above `elide`, which lets
      indices 0 to `elide` through — `elide + 1` rows. */
  function ShownRows(elide: nat, n: nat): nat
  {
    if elide > 0 && n > elide + 1 then elide + 1 else n
  }

  /** The advisories whose rows are rendered. */
  function ShownAdvisories(advisories: Object<Advisory>, elide: nat): Object<Advisory>
  {
    advisories[..ShownRows(elide, |advisories|)]
  }

  /** The advisory loop: one row per advisory, in key order, until the index
      passes `elide`. Only advisories that are reached are read, so an advisory
      without findings past the cut does no harm. */
  method ElidedAdvisoryRows(advisories: Object<Advisory>, elide: nat) returns (r: Result<string, Fault>)
    ensures var shown := advisories[..ShownRows(elide, |advisories|)];
      && (HasFindings(shown) ==> r == Success(JoinLines(AdvisoryRows(shown))))
      && (!HasFindings(shown) ==> r == Failure(MissingFindings))
  {
    var text := "";
    var i := 0;
    assert AdvisoryRows(advisories[..0]) == [];
    while i < |advisories|
      invariant i <= ShownRows(elide, |advisories|)
      invariant HasFindings(advisories[..i])
      invariant text == JoinLines(AdvisoryRows(advisories[..i]))
    {
      if elide > 0 && i > elide {
        break;
      }
      var advisory := advisories[i].1;
      if |advisory.findings| == 0 {
        assert advisories[..ShownRows(elide, |advisories|)][i] == advisories[i];
        return Failure(MissingFindings);
      }
      AdvisoryRowsStep(advisories, i);
      Emit(text, AdvisoryRows(advisories[..i]), AdvisoryRow(advisory));
      text := text + AdvisoryRow(advisory) + "\n";
      i := i + 1;
    }
    assert i == ShownRows(elide, |advisories|);
    r := Success(text);
  }

  /** The outdated loop: one row per package, in key order, until the index
      passes `elide`. */
  method ElidedOutdatedRows(packages: OutdatedReport, elide: nat) returns (text: string)
    ensures text == JoinLines(OutdatedRows(packages[..ShownRows(elide, |packages|)]))
  {
    text := "";
    var i := 0;
    assert OutdatedRows(packages[..0]) == [];
    while i < |packages|
      invariant i <= ShownRows(elide, |packages|)
      invariant text == JoinLines(OutdatedRows(packages[..i]))
    {
      if elide > 0 && i > elide {
        break;
      }
      var (name, versions) := packages[i];
      OutdatedRowsStep(packages, i);
      Emit(text, OutdatedRows(packages[..i]), OutdatedRow(name, versions));
      text := text + OutdatedRow(name, versions) + "\n";
      i := i + 1;
    }
    assert i == ShownRows(elide, |packages|);
  }

  // ---------------------------------------------------------------------
  // The comment
  // ---------------------------------------------------------------------

  /** The dependency count, the vulnerability count, and the table head, which
      is there even when there are no advisories. */
  function AuditHead(report: AuditReport): seq<string>
  {
    [ "## Total Dependencies: " + NatToString(report.totalDependencies),
      "### Vulnerabilities (" + NatToString(TotalVulnerabilities(report.vulnerabilities)) + ")",
      ADVISORY_HEADER,
      TABLE_SEPARATOR ]
  }

  /** The outdated count — of all packages, however many rows are shown — and
      the table head. */
  function OutdatedHead(packages: OutdatedReport): seq<string>
  {
    [ "### Outdated Packages (" + NatToString(|Keys(packages)|) + ")",
      OUTDATED_HEADER,
      TABLE_SEPARATOR ]
  }

  function AuditLinesTs(report: AuditReport, elide: nat): seq<string>
    requires HasFindings(ShownAdvisories(report.advisories, elide))
  {
    AuditHead(report) + AdvisoryRows(ShownAdvisories(report.advisories, elide)) + [""]
  }

  function OutdatedLinesTs(packages: OutdatedReport, elide: nat): seq<string>
  {
    OutdatedHead(packages) + OutdatedRows(packages[..ShownRows(elide, |packages|)]) + [""]
  }

  /** The comment: the audit part, then the outdated part, each ended by an
      empty line. */
  function CommentBodyTs(report: AuditReport, packages: OutdatedReport, elide: nat): string
    requires HasFindings(ShownAdvisories(report.advisories, elide))
  {
    JoinLines(AuditLinesTs(report, elide) + OutdatedLinesTs(packages, elide))
  }

  /** The audit callback's part of `prComment`. */
  method AuditPart(report: AuditReport, elide: nat) returns (outputs: Outputs, r: Result<string, Fault>)
    ensures outputs == AuditOutputs(report)
    ensures HasFindings(ShownAdvisories(report.advisories, elide)) ==>
      r == Success(JoinLines(AuditLinesTs(report, elide)))
    ensures !HasFindings(ShownAdvisories(report.advisories, elide)) ==> r == Failure(MissingFindings)
  {
    var prComment;
    outputs, prComment := AuditHeadText(report);
    ghost var lines := AuditHead(report);
    var rows := ElidedAdvisoryRows(report.advisories, elide);
    if rows.Failure? {
      return outputs, Failure(MissingFindings);
    }
    ghost var shownRows := AdvisoryRows(ShownAdvisories(report.advisories, elide));
    EmitAll(prComment, lines, rows.value, shownRows);
    prComment, lines := prComment + rows.value, lines + shownRows;
    Emit(prComment, lines, "");
    assert prComment + "" + "\n" == prComment + "\n";
    prComment, lines := prComment + "\n", lines + [""];
    assert lines == AuditLinesTs(report, elide);
    r := Success(prComment);
  }

  /** The counts and the table head, with the outputs set on the way. */
  method AuditHeadText(report: AuditReport) returns (outputs: Outputs, prComment: string)
    ensures outputs == AuditOutputs(report)
    ensures prComment == JoinLines(AuditHead(report))
  {
    prComment := "";
    ghost var lines: seq<string> := [];
    var v := report.vulnerabilities;
    var dependencies := "## Total Dependencies: " + NatToString(report.totalDependencies);
    Emit(prComment, lines, dependencies);
    prComment, lines := prComment + dependencies + "\n", lines + [dependencies];
    var totalVulnerabilities := v.low + v.moderate + v.high + v.critical;
    outputs := Outputs(report.totalDependencies, totalVulnerabilities);
    var vulnerabilities := "### Vulnerabilities (" + NatToString(totalVulnerabilities) + ")";
    Emit(prComment, lines, vulnerabilities);
    prComment, lines := prComment + vulnerabilities + "\n", lines + [vulnerabilities];
    Emit(prComment, lines, ADVISORY_HEADER);
    prComment, lines := prComment + ADVISORY_HEADER + "\n", lines + [ADVISORY_HEADER];
    Emit(prComment, lines, TABLE_SEPARATOR);
    prComment, lines := prComment + TABLE_SEPARATOR + "\n", lines + [TABLE_SEPARATOR];
    assert lines == AuditHead(report);
  }

  /** The outdated callback's part of `prComment`. */
  method OutdatedPart(packages: OutdatedReport, elide: nat) returns (text: string)
    ensures text == JoinLines(OutdatedLinesTs(packages, elide))
  {
    text := "";
    ghost var lines: seq<string> := [];
    var outdatedPackageNames := Keys(packages);
    var heading := "### Outdated Packages (" + NatToString(|outdatedPackageNames|) + ")";
    Emit(text, lines, heading);
    text, lines := text + heading + "\n", lines + [heading];
    Emit(text, lines, OUTDATED_HEADER);
    text, lines := text + OUTDATED_HEADER + "\n", lines + [OUTDATED_HEADER];
    Emit(text, lines, TABLE_SEPARATOR);
    text, lines := text + TABLE_SEPARATOR + "\n", lines + [TABLE_SEPARATOR];
    assert lines == OutdatedHead(packages);
    var rows := ElidedOutdatedRows(packages, elide);
    EmitAll(text, lines, rows, OutdatedRows(packages[..ShownRows(elide, |packages|)]));
    text, lines := text + rows, lines + OutdatedRows(packages[..ShownRows(elide, |packages|)]);
    Emit(text, lines, "");
    assert text + "" + "\n" == text + "\n";
    text, lines := text + "\n", lines + [""];
  }

  /** The whole script: validation inside the `try`, then the audit callback,
      then the outdated callback, which posts the comment. The token is read
      only when a comment is to be posted, and its absence is thrown inside a
      callback, where the `try` no longer catches it. */
  method Run(env: Env, elide: nat, commentPr: bool, audit: AuditReport, outdated: OutdatedReport)
    returns (result: RunResult)
    ensures ValidateLegacy(env).Fail? ==> result == RunResult([], None, None, Failed(ValidateLegacy(env).message))
    ensures ValidateLegacy(env).Pass? && !HasFindings(ShownAdvisories(audit.advisories, elide)) ==>
      result == RunResult([NpmAudit], Some(AuditOutputs(audit)), None, Crashed(MissingFindings))
    ensures ValidateLegacy(env).Pass? && HasFindings(ShownAdvisories(audit.advisories, elide)) ==>
      && result.invoked == [NpmAudit, NpmOutdated]
      && result.outputs == Some(AuditOutputs(audit))
      && (!commentPr ==> result.comment == None && result.status == Passed)
      && (commentPr && !Truthy(env.token) ==> result.comment == None && result.status == Crashed(Thrown(TOKEN_MESSAGE)))
      && (commentPr && Truthy(env.token) ==>
            var (owner, repo) := OwnerAndRepo(env.repository.value);
            result.comment == Some(Comment(owner, repo, env.prNumber, CommentBodyTs(audit, outdated, elide)))
            && result.status == Passed)
  {
    var check := ValidateLegacy(env);
    if check.Fail? {
      return RunResult([], None, None, Failed(check.message));
    }
    var outputs, auditPart := AuditPart(audit, elide);
    if auditPart.Failure? {
      return RunResult([NpmAudit], Some(outputs), None, Crashed(auditPart.error));
    }
    var outdatedPart := OutdatedPart(outdated, elide);
    var prComment := auditPart.value + outdatedPart;
    JoinLinesAppend(AuditLinesTs(audit, elide), OutdatedLinesTs(outdated, elide));
    var invoked := [NpmAudit, NpmOutdated];
    if commentPr {
      if !Truthy(env.token) {
        return RunResult(invoked, Some(outputs), None, Crashed(Thrown(TOKEN_MESSAGE)));
      }
      var (owner, repo) := OwnerAndRepo(env.repository.value);
      return RunResult(invoked, Some(outputs), Some(Comment(owner, repo, env.prNumber, prComment)), Passed);
    }
    result := RunResult(invoked, Some(outputs), None, Passed);
  }

  // ---------------------------------------------------------------------
  // Properties
  // ---------------------------------------------------------------------

  /** With `elide` 0 every row is rendered; otherwise the first
      min(n, elide + 1) rows, in key order. */
  lemma ElideRule(elide: nat, n: nat)
    ensures elide == 0 ==> ShownRows(elide, n) == n
    ensures elide > 0 ==> ShownRows(elide, n) == if n <= elide + 1 then n else elide + 1
    ensures ShownRows(elide, n) <= n
  {
  }

  /** The audit part: the counts, the table head even with no advisory, one
      row for each shown advisory in key order, and an empty line. */
  lemma AuditPartLayout(report: AuditReport, elide: nat)
    requires HasFindings(ShownAdvisories(report.advisories, elide))
    ensures var lines := AuditLinesTs(report, elide);
      var k := ShownRows(elide, |report.advisories|);
      |lines| == k + 5
      && lines[1] == "### Vulnerabilities (" + NatToString(TotalVulnerabilities(report.vulnerabilities)) + ")"
      && lines[2] == ADVISORY_HEADER && lines[3] == TABLE_SEPARATOR
      && (forall i :: 0 <= i < k ==> lines[4 + i] == AdvisoryRow(report.advisories[i].1))
      && lines[4 + k] == ""
  {
    var shown := ShownAdvisories(report.advisories, elide);
    assert forall i :: 0 <= i < |shown| ==> shown[i] == report.advisories[i];
  }

  /** The outdated part counts every package even when rows are elided, and
      shows the first `ShownRows` of them. */
  lemma OutdatedPartLayout(packages: OutdatedReport, elide: nat)
    ensures var lines := OutdatedLinesTs(packages, elide);
      var k := ShownRows(elide, |packages|);
      |lines| == k + 4
      && lines[0] == "### Outdated Packages (" + NatToString(|Keys(packages)|) + ")"
      && lines[1] == OUTDATED_HEADER && lines[2] == TABLE_SEPARATOR
      && (forall i :: 0 <= i < k ==> lines[3 + i] == OutdatedRow(packages[i].0, packages[i].1))
      && lines[3 + k] == ""
  {
    var shown := packages[..ShownRows(elide, |packages|)];
    assert forall i :: 0 <= i < |shown| ==> shown[i] == packages[i];
  }

  /** The comment is the audit part followed by the outdated part. */
  lemma CommentOrder(report: AuditReport, packages: OutdatedReport, elide: nat)
    requires HasFindings(ShownAdvisories(report.advisories, elide))
    ensures CommentBodyTs(report, packages, elide)
      == JoinLines(AuditLinesTs(report, elide)) + JoinLines(OutdatedLinesTs(packages, elide))
  {
    JoinLinesAppend(AuditLinesTs(report, elide), OutdatedLinesTs(packages, elide));
  }

  // ---------------------------------------------------------------------
  // The off-by-one in the truncation
  // ---------------------------------------------------------------------

  /** As written: with `elide` set and more rows than `elide`, one row more
      than `elide` is rendered; `elide = 1` with two advisories shows both. */
  lemma ElideOffByOne(elide: nat, n: nat)
    requires elide > 0 && n > elide
    ensures ShownRows(elide, n) == elide + 1
    ensures ShownRows(1, 2) == 2
  {
  }

  /** As intended: `elide` keeps the first `elide` rows. */
  function IntendedRows(elide: nat, n: nat): (k: nat)
    ensures k <= n
    ensures elide > 0 ==> k <= elide
    ensures k == n || (elide > 0 && k == elide)
  {
    if elide > 0 && n > elide then elide else n
  }

  /** The outdated loop with the comparison corrected to `i >= elide`: it
      renders exactly the first `IntendedRows` rows. */
  method IntendedOutdatedRows(packages: OutdatedReport, elide: nat) returns (text: string)
    ensures text == JoinLines(OutdatedRows(packages[..IntendedRows(elide, |packages|)]))
  {
    text := "";
    var i := 0;
    assert OutdatedRows(packages[..0]) == [];
    while i < |packages|
      invariant i <= IntendedRows(elide, |packages|)
      invariant text == JoinLines(OutdatedRows(packages[..i]))
    {
      if elide > 0 && i >= elide {
        break;
      }
      var (name, versions) := packages[i];
      OutdatedRowsStep(packages, i);
      Emit(text, OutdatedRows(packages[..i]), OutdatedRow(name, versions));
      text := text + OutdatedRow(name, versions) + "\n";
      i := i + 1;
    }
    assert i == IntendedRows(elide, |packages|);
  }

  /** The intended rule agrees with the written one except where the written
      one renders exactly one row too many. */
  lemma IntendedRowsDiffer(elide: nat, n: nat)
    ensures elide > 0 && n > elide ==> IntendedRows(elide, n) + 1 == ShownRows(elide, n)
    ensures !(elide > 0 && n > elide) ==> IntendedRows(elide, n) == ShownRows(elide, n)
  {
  }
}
