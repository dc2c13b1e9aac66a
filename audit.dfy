/** The audit section of the report (`RunAudit` in dist/index.js): the
    dependency count, the vulnerability count, and a table of advisories or
    a message that there are none. */
module Audit {
  import opened Wrappers
  import opened Text
  import opened Json
  import opened Context
  import opened Tables

  const NO_VULNERABILITIES := "No vulnerability " + "disclosures found :smile:"
  const AUDIT_HINT := "> to observe " + "and fix " + "vulnerabilities, " + "run `npm " + "audit`"

  lemma NoVulnerabilitiesOneLine()
    ensures OneLine(NO_VULNERABILITIES)
  {
  }

  lemma AuditHintOneLine()
    ensures OneLine(AUDIT_HINT)
  {
  }

  /** The vulnerability count: the four severity counts added up. */
  function TotalVulnerabilities(v: Severities): nat
  {
    v.low + v.moderate + v.high + v.critical
  }

  function DependenciesLine(totalDependencies: nat): string
  {
    "Total Dependencies: **" + NatToString(totalDependencies) + "**"
  }

  function VulnerabilitiesSummary(totalVulnerabilities: nat): string
  {
    "<summary>Vulnerabilities: " + NatToString(totalVulnerabilities) + "</summary>"
  }

  /** The advisory table, or the message that there are no advisories. */
  function AuditBody(advisories: Object<Advisory>): seq<string>
    requires HasFindings(advisories)
  {
    if advisories == [] then [NO_VULNERABILITIES]
    else [ADVISORY_HEADER, TABLE_SEPARATOR] + AdvisoryRows(advisories) + [AUDIT_HINT]
  }

  /** The lines of the audit section, for a report whose advisories all have a finding. */
  function AuditLines(report: AuditReport): seq<string>
    requires HasFindings(report.advisories)
  {
    [DependenciesLine(report.totalDependencies)]
    + Details(VulnerabilitiesSummary(TotalVulnerabilities(report.vulnerabilities)), AuditBody(report.advisories))
  }

  /** What `RunAudit` resolves to: the markdown and the vulnerability count. */
  datatype AuditSection = AuditSection(markdown: string, vulnerabilities: nat)

  /** The section, or the exception raised by the first advisory without findings. */
  function AuditFragment(report: AuditReport): Result<AuditSection, Fault>
  {
    if HasFindings(report.advisories) then
      Success(AuditSection(JoinLines(AuditLines(report)), TotalVulnerabilities(report.vulnerabilities)))
    else
      Failure(MissingFindings)
  }

  function AuditOutputs(report: AuditReport): Outputs
  {
    Outputs(report.totalDependencies, TotalVulnerabilities(report.vulnerabilities))
  }

  /** Renders the audit section by appending to a markdown string. The outputs
      are set before the table is built, so they exist on the error path too. */
  method RunAudit(report: AuditReport) returns (outputs: Outputs, r: Result<AuditSection, Fault>)
    ensures outputs.totalDependencies == report.totalDependencies
    ensures outputs.totalVulnerabilities == report.vulnerabilities.low + report.vulnerabilities.moderate
                                           + report.vulnerabilities.high + report.vulnerabilities.critical
    ensures r.Success? ==> r.value.vulnerabilities == outputs.totalVulnerabilities
    ensures r.Success? <==> HasFindings(report.advisories)
    ensures r == AuditFragment(report)
  {
    var markdown := "";
    var advisories := report.advisories;
    var v := report.vulnerabilities;
    var dependencies := DependenciesLine(report.totalDependencies);
    markdown := markdown + dependencies + "\n";
    ghost var head := markdown;
    var totalVulnerabilities := v.low + v.moderate + v.high + v.critical;
    outputs := Outputs(report.totalDependencies, totalVulnerabilities);
    var summary := VulnerabilitiesSummary(totalVulnerabilities);
    markdown := markdown + DETAILS_OPEN + "\n" + summary + "\n\n";
    var body := AuditBodyText(advisories);
    if body.Failure? {
      return outputs, Failure(MissingFindings);
    }
    markdown := markdown + body.value;
    markdown := markdown + DETAILS_CLOSE + "\n";
    Emit("", [], dependencies);
    assert [] + [dependencies] == [dependencies];
    EmitDetails(head, [dependencies], summary, body.value, AuditBody(advisories));
    r := Success(AuditSection(markdown, totalVulnerabilities));
  }

  /** The part of `RunAudit` after the summary: the message that there is
      nothing to report, or the table and the hint to run `npm audit`. */
  method AuditBodyText(advisories: Object<Advisory>) returns (r: Result<string, Fault>)
    ensures HasFindings(advisories) ==> r == Success(JoinLines(AuditBody(advisories)))
    ensures !HasFindings(advisories) ==> r == Failure(MissingFindings)
  {
    var markdown := "";
    ghost var lines: seq<string> := [];
    if |advisories| == 0 {
      Emit(markdown, lines, NO_VULNERABILITIES);
      markdown, lines := markdown + NO_VULNERABILITIES + "\n", lines + [NO_VULNERABILITIES];
      assert lines == AuditBody(advisories);
      return Success(markdown);
    }
    Emit(markdown, lines, ADVISORY_HEADER);
    markdown, lines := markdown + ADVISORY_HEADER + "\n", lines + [ADVISORY_HEADER];
    Emit(markdown, lines, TABLE_SEPARATOR);
    markdown, lines := markdown + TABLE_SEPARATOR + "\n", lines + [TABLE_SEPARATOR];
    var rows := AdvisoryTableRows(advisories);
    if rows.Failure? {
      return Failure(MissingFindings);
    }
    EmitAll(markdown, lines, rows.value, AdvisoryRows(advisories));
    markdown, lines := markdown + rows.value, lines + AdvisoryRows(advisories);
    Emit(markdown, lines, AUDIT_HINT);
    markdown, lines := markdown + AUDIT_HINT + "\n", lines + [AUDIT_HINT];
    assert lines == AuditBody(advisories);
    r := Success(markdown);
  }

  /** The loop over the advisory keys: one row per advisory, in key order; the
      first advisory without findings throws. */
  method AdvisoryTableRows(advisories: Object<Advisory>) returns (r: Result<string, Fault>)
    ensures HasFindings(advisories) ==> r == Success(JoinLines(AdvisoryRows(advisories)))
    ensures !HasFindings(advisories) ==> r == Failure(MissingFindings)
  {
    var text := "";
    assert AdvisoryRows(advisories[..0]) == [];
    for i := 0 to |advisories|
      invariant HasFindings(advisories[..i])
      invariant text == JoinLines(AdvisoryRows(advisories[..i]))
    {
      var advisory := advisories[i].1;
      if |advisory.findings| == 0 {
        assert !HasFindings(advisories);
        return Failure(MissingFindings);
      }
      AdvisoryRowsStep(advisories, i);
      Emit(text, AdvisoryRows(advisories[..i]), AdvisoryRow(advisory));
      text := text + AdvisoryRow(advisory) + "\n";
    }
    assert advisories[..|advisories|] == advisories;
    r := Success(text);
  }

  // ---------------------------------------------------------------------
  // Properties of the audit section
  // ---------------------------------------------------------------------

  /** The section opens with the dependency count and always closes its details block. */
  lemma AuditFrame(report: AuditReport)
    requires HasFindings(report.advisories)
    ensures var md := AuditFragment(report).value.markdown;
      var first := "Total Dependencies: **" + NatToString(report.totalDependencies) + "**\n";
      |first| + |"</details>\n"| <= |md|
      && md[..|first|] == first
      && md[|md| - |"</details>\n"|..] == "</details>\n"
  {
    var lines := AuditLines(report);
    assert lines == [lines[0]] + lines[1..];
    JoinLinesCons(lines[0], lines[1..]);
    assert lines == lines[..|lines| - 1] + ["</details>"];
    JoinLinesSuffix(lines[..|lines| - 1], "</details>");
  }

  /** With no advisories the section says so and has no table: no `|` appears at all. */
  lemma AuditWithoutAdvisories(report: AuditReport)
    requires report.advisories == []
    ensures AuditFragment(report).Success?
    ensures AuditLines(report)[4] == NO_VULNERABILITIES
    ensures '|' !in AuditFragment(report).value.markdown
  {
    var total := TotalVulnerabilities(report.vulnerabilities);
    var lines := AuditLines(report);
    assert lines == [ DependenciesLine(report.totalDependencies), DETAILS_OPEN,
                      VulnerabilitiesSummary(total), "", NO_VULNERABILITIES, DETAILS_CLOSE ];
    NoBarOutsideTable(report.totalDependencies, total);
    JoinLinesAvoids('|', lines);
  }

  /** No line of the section outside the table holds a `|`. */
  lemma NoBarOutsideTable(totalDependencies: nat, totalVulnerabilities: nat)
    ensures '|' !in DependenciesLine(totalDependencies)
    ensures '|' !in VulnerabilitiesSummary(totalVulnerabilities)
    ensures '|' !in NO_VULNERABILITIES && '|' !in DETAILS_OPEN && '|' !in DETAILS_CLOSE
  {
    var d, v := NatToString(totalDependencies), NatToString(totalVulnerabilities);
    assert '|' !in d && '|' !in v;
    assert DependenciesLine(totalDependencies) == "Total Dependencies: **" + d + "**";
    assert VulnerabilitiesSummary(totalVulnerabilities) == "<summary>Vulnerabilities: " + v + "</summary>";
  }

  /** With advisories the section has the header, the separator, then exactly one
      row per advisory in key order, then the hint to run `npm audit`. */
  lemma AuditTable(report: AuditReport)
    requires HasFindings(report.advisories) && report.advisories != []
    ensures var lines := AuditLines(report);
      var n := |report.advisories|;
      |lines| == n + 8
      && lines[4] == ADVISORY_HEADER && lines[5] == TABLE_SEPARATOR
      && (forall i :: 0 <= i < n ==> lines[6 + i] == AdvisoryRow(report.advisories[i].1))
      && lines[6 + n] == AUDIT_HINT
  {
  }

  lemma AuditBodyOneLine(advisories: Object<Advisory>)
    requires HasFindings(advisories) && AdvisoriesOneLine(advisories)
    ensures AllOneLine(AuditBody(advisories))
  {
    if advisories == [] {
      NoVulnerabilitiesOneLine();
    } else {
      AdvisoryHeaderOneLine();
      AuditHintOneLine();
      AdvisoryRowsOneLine(advisories);
      TableOneLine(ADVISORY_HEADER, AdvisoryRows(advisories), AUDIT_HINT);
    }
  }

  /** Reading the markdown back line by line gives exactly the lines of the section. */
  lemma AuditReadBack(report: AuditReport)
    requires HasFindings(report.advisories) && AdvisoriesOneLine(report.advisories)
    ensures Split(AuditFragment(report).value.markdown, '\n') == AuditLines(report) + [""]
  {
    var summary := VulnerabilitiesSummary(TotalVulnerabilities(report.vulnerabilities));
    assert OneLine(NatToString(report.totalDependencies));
    assert OneLine(NatToString(TotalVulnerabilities(report.vulnerabilities)));
    AuditBodyOneLine(report.advisories);
    DetailsOneLine(summary, AuditBody(report.advisories));
    AllOneLineAppend([DependenciesLine(report.totalDependencies)], Details(summary, AuditBody(report.advisories)));
    SplitJoinLines(AuditLines(report));
  }
}
