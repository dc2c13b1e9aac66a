/** The compiled earlier action (index.js): the same steps as index.ts, with a
    hint after each table and, when `elide` is set, a closing notice that some
    results may have been left out. */
module LegacyJs {
  import opened Wrappers
  import opened Text
  import opened Json
  import opened Context
  import opened Tables
  import opened Audit
  import opened Outdated
  import opened LegacyTs

  const LEGACY_AUDIT_HINT := "> to observe and " + "fix issues, " + "run `npm audit`"
  /** Appended last, without a line break, when `elide` is set. */
  const ELIDED_NOTICE := "> some results " + "may be elided " + "for brevity."

  /** The audit part: as in index.ts, with the hint before the empty line. */
  function AuditLinesJs(report: AuditReport, elide: nat): seq<string>
    requires HasFindings(ShownAdvisories(report.advisories, elide))
  {
    AuditHead(report) + AdvisoryRows(ShownAdvisories(report.advisories, elide)) + [LEGACY_AUDIT_HINT, ""]
  }

  /** The outdated part: as in index.ts, with the hint before the empty line. */
  function OutdatedLinesJs(packages: OutdatedReport, elide: nat): seq<string>
  {
    OutdatedHead(packages) + OutdatedRows(packages[..ShownRows(elide, |packages|)]) + [OUTDATED_HINT, ""]
  }

  function CommentBodyJs(report: AuditReport, packages: OutdatedReport, elide: nat): string
    requires HasFindings(ShownAdvisories(report.advisories, elide))
  {
    JoinLines(AuditLinesJs(report, elide) + OutdatedLinesJs(packages, elide))
      + (if elide > 0 then ELIDED_NOTICE else "")
  }

  /** The audit callback's part of `prComment`. */
  method AuditPartJs(report: AuditReport, elide: nat) returns (outputs: Outputs, r: Result<string, Fault>)
    ensures outputs == AuditOutputs(report)
    ensures HasFindings(ShownAdvisories(report.advisories, elide)) ==>
      r == Success(JoinLines(AuditLinesJs(report, elide)))
    ensures !HasFindings(ShownAdvisories(report.advisories, elide)) ==> r == Failure(MissingFindings)
  {
    var prComment;
    outputs, prComment := AuditHeadText(report);
    ghost var lines := AuditHead(report);
    var rows := ElidedAdvisoryRows(report.advisories, elide);
    if rows.Failure? {
      return outputs, Failure(MissingFindings);
    }
    ghost var shownRows := AdvisoryRows(ShownAdvisories(report.advisories, elide));
    EmitAll(prComment, lines, rows.value, shownRows);
    prComment, lines := prComment + rows.value, lines + shownRows;
    EmitBlank(prComment, lines, LEGACY_AUDIT_HINT);
    prComment, lines := prComment + LEGACY_AUDIT_HINT + "\n\n", lines + [LEGACY_AUDIT_HINT, ""];
    assert lines == AuditLinesJs(report, elide);
    r := Success(prComment);
  }

  /** The outdated callback's part of `prComment`, up to the notice. */
  method OutdatedPartJs(packages: OutdatedReport, elide: nat) returns (text: string)
    ensures text == JoinLines(OutdatedLinesJs(packages, elide))
  {
    text := "";
    ghost var lines: seq<string> := [];
    var outdatedPackageNames := Keys(packages);
    var heading := "### Outdated Packages (" + NatToString(|outdatedPackageNames|) + ")";
    Emit(text, lines, heading);
    text, lines := text + heading + "\n", lines + [heading];
    Emit(text, lines, OUTDATED_HEADER);
    text, lines := text + OUTDATED_HEADER + "\n", lines + [OUTDATED_HEADER];
    Emit(text, lines, TABLE_SEPARATOR);
    text, lines := text + TABLE_SEPARATOR + "\n", lines + [TABLE_SEPARATOR];
    assert lines == OutdatedHead(packages);
    var rows := ElidedOutdatedRows(packages, elide);
    ghost var shownRows := OutdatedRows(packages[..ShownRows(elide, |packages|)]);
    EmitAll(text, lines, rows, shownRows);
    text, lines := text + rows, lines + shownRows;
    EmitBlank(text, lines, OUTDATED_HINT);
    text, lines := text + OUTDATED_HINT + "\n\n", lines + [OUTDATED_HINT, ""];
    assert lines == OutdatedLinesJs(packages, elide);
  }

  /** The whole script, as index.ts, with the notice appended before the
      comment is posted. */
  method RunJs(env: Env, elide: nat, commentPr: bool, audit: AuditReport, outdated: OutdatedReport)
    returns (result: RunResult)
    ensures ValidateLegacy(env).Fail? ==> result == RunResult([], None, None, Failed(ValidateLegacy(env).message))
    ensures ValidateLegacy(env).Pass? && !HasFindings(ShownAdvisories(audit.advisories, elide)) ==>
      result == RunResult([NpmAudit], Some(AuditOutputs(audit)), None, Crashed(MissingFindings))
    ensures ValidateLegacy(env).Pass? && HasFindings(ShownAdvisories(audit.advisories, elide)) ==>
      && result.invoked == [NpmAudit, NpmOutdated]
      && result.outputs == Some(AuditOutputs(audit))
      && (!commentPr ==> result.comment == None && result.status == Passed)
      && (commentPr && !Truthy(env.token) ==> result.comment == None && result.status == Crashed(Thrown(TOKEN_MESSAGE)))
      && (commentPr && Truthy(env.token) ==>
            var (owner, repo) := OwnerAndRepo(env.repository.value);
            result.comment == Some(Comment(owner, repo, env.prNumber, CommentBodyJs(audit, outdated, elide)))
            && result.status == Passed)
  {
    var check := ValidateLegacy(env);
    if check.Fail? {
      return RunResult([], None, None, Failed(check.message));
    }
    var outputs, auditPart := AuditPartJs(audit, elide);
    if auditPart.Failure? {
      return RunResult([NpmAudit], Some(outputs), None, Crashed(auditPart.error));
    }
    var outdatedPart := OutdatedPartJs(outdated, elide);
    var prComment := auditPart.value + outdatedPart;
    JoinLinesAppend(AuditLinesJs(audit, elide), OutdatedLinesJs(outdated, elide));
    if elide > 0 {
      prComment := prComment + ELIDED_NOTICE;
    } else {
      assert prComment + "" == prComment;
    }
    var invoked := [NpmAudit, NpmOutdated];
    if commentPr {
      if !Truthy(env.token) {
        return RunResult(invoked, Some(outputs), None, Crashed(Thrown(TOKEN_MESSAGE)));
      }
      var (owner, repo) := OwnerAndRepo(env.repository.value);
      return RunResult(invoked, Some(outputs), Some(Comment(owner, repo, env.prNumber, prComment)), Passed);
    }
    result := RunResult(invoked, Some(outputs), None, Passed);
  }

  // ---------------------------------------------------------------------
  // Properties
  // ---------------------------------------------------------------------

  /** The two scripts differ only in the hints and the notice: each part of
      index.js is the index.ts part with its hint put before the empty line. */
  lemma HintsOnly(report: AuditReport, packages: OutdatedReport, elide: nat)
    requires HasFindings(ShownAdvisories(report.advisories, elide))
    ensures var ts := AuditLinesTs(report, elide);
      AuditLinesJs(report, elide) == ts[..|ts| - 1] + [LEGACY_AUDIT_HINT, ""]
    ensures var ts := OutdatedLinesTs(packages, elide);
      OutdatedLinesJs(packages, elide) == ts[..|ts| - 1] + [OUTDATED_HINT, ""]
  {
    var a := AuditHead(report) + AdvisoryRows(ShownAdvisories(report.advisories, elide));
    assert AuditLinesTs(report, elide)[..|a|] == a;
    var o := OutdatedHead(packages) + OutdatedRows(packages[..ShownRows(elide, |packages|)]);
    assert OutdatedLinesTs(packages, elide)[..|o|] == o;
  }

  /** The comment ends with the notice when `elide` is set, and with a line
      break — so with no notice — when it is not. */
  lemma NoticeIffElided(report: AuditReport, packages: OutdatedReport, elide: nat)
    requires HasFindings(ShownAdvisories(report.advisories, elide))
    ensures var body := CommentBodyJs(report, packages, elide);
      && (elide > 0 ==> |body| >= |ELIDED_NOTICE| && body[|body| - |ELIDED_NOTICE|..] == ELIDED_NOTICE)
      && (|body| > 0 && body[|body| - 1] == '\n' <==> elide == 0)
  {
    var front := AuditLinesJs(report, elide) + OutdatedLinesJs(packages, elide);
    var text := JoinLines(front);
    assert front == front[..|front| - 1] + [""];
    JoinLinesSuffix(front[..|front| - 1], "");
    assert text[|text| - 1] == '\n';
    var body := CommentBodyJs(report, packages, elide);
    if elide > 0 {
      assert body == text + ELIDED_NOTICE;
      assert body[|body| - |ELIDED_NOTICE|..] == ELIDED_NOTICE;
      assert body[|body| - 1] == ELIDED_NOTICE[|ELIDED_NOTICE| - 1] == '.';
    } else {
      assert body == text;
    }
  }
}
