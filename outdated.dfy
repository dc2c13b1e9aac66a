/** The outdated-packages section of the report (`RunOutdated` in
    dist/index.js): how many packages `npm outdated` lists, and a table of
    them or a message that there are none. */
module Outdated {
  import opened Text
  import opened Json
  import opened Tables

  const NO_OUTDATED := "No outdated packages " + "found :smile:"
  const OUTDATED_HINT := "> to observe and " + "update outdated packages, " + "run `npm " + "outdated`"

  lemma NoOutdatedOneLine()
    ensures OneLine(NO_OUTDATED)
  {
  }

  lemma OutdatedHintOneLine()
    ensures OneLine(OUTDATED_HINT)
  {
  }

  function OutdatedSummary(count: nat): string
  {
    "<summary>Outdated Packages: " + NatToString(count) + "</summary>"
  }

  /** The package table and the hint to run `npm outdated`, or the message
      that nothing is outdated. */
  function OutdatedBody(packages: OutdatedReport): seq<string>
  {
    if packages == [] then [NO_OUTDATED]
    else [OUTDATED_HEADER, TABLE_SEPARATOR] + OutdatedRows(packages) + [OUTDATED_HINT]
  }

  /** The lines of the outdated section. */
  function OutdatedLines(packages: OutdatedReport): seq<string>
  {
    Details(OutdatedSummary(|packages|), OutdatedBody(packages))
  }

  /** What `RunOutdated` resolves to: the markdown and the outdated count. */
  datatype OutdatedSection = OutdatedSection(markdown: string, outdated: nat)

  /** Renders the outdated section by appending to a markdown string. */
  method RunOutdated(packages: OutdatedReport) returns (section: OutdatedSection)
    ensures section.outdated == |Keys(packages)|
    ensures section.markdown == JoinLines(OutdatedLines(packages))
  {
    var markdown := "";
    var outdatedPackages := Keys(packages);
    var summary := OutdatedSummary(|outdatedPackages|);
    markdown := markdown + DETAILS_OPEN + "\n" + summary + "\n\n";
    var body := OutdatedBodyText(packages);
    markdown := markdown + body;
    markdown := markdown + DETAILS_CLOSE + "\n";
    EmitDetails("", [], summary, body, OutdatedBody(packages));
    assert [] + OutdatedLines(packages) == OutdatedLines(packages);
    section := OutdatedSection(markdown, |outdatedPackages|);
  }

  /** The part of `RunOutdated` after the summary. */
  method OutdatedBodyText(packages: OutdatedReport) returns (markdown: string)
    ensures markdown == JoinLines(OutdatedBody(packages))
  {
    markdown := "";
    ghost var lines: seq<string> := [];
    if |packages| == 0 {
      Emit(markdown, lines, NO_OUTDATED);
      markdown, lines := markdown + NO_OUTDATED + "\n", lines + [NO_OUTDATED];
    } else {
      Emit(markdown, lines, OUTDATED_HEADER);
      markdown, lines := markdown + OUTDATED_HEADER + "\n", lines + [OUTDATED_HEADER];
      Emit(markdown, lines, TABLE_SEPARATOR);
      markdown, lines := markdown + TABLE_SEPARATOR + "\n", lines + [TABLE_SEPARATOR];
      var rows := OutdatedTableRows(packages);
      EmitAll(markdown, lines, rows, OutdatedRows(packages));
      markdown, lines := markdown + rows, lines + OutdatedRows(packages);
      Emit(markdown, lines, OUTDATED_HINT);
      markdown, lines := markdown + OUTDATED_HINT + "\n", lines + [OUTDATED_HINT];
    }
    assert lines == OutdatedBody(packages);
  }

  /** The loop over the package names: one row per package, in key order. */
  method OutdatedTableRows(packages: OutdatedReport) returns (text: string)
    ensures text == JoinLines(OutdatedRows(packages))
  {
    text := "";
    assert OutdatedRows(packages[..0]) == [];
    for i := 0 to |packages|
      invariant text == JoinLines(OutdatedRows(packages[..i]))
    {
      var (name, versions) := packages[i];
      OutdatedRowsStep(packages, i);
      Emit(text, OutdatedRows(packages[..i]), OutdatedRow(name, versions));
      text := text + OutdatedRow(name, versions) + "\n";
    }
    assert packages[..|packages|] == packages;
  }

  // ---------------------------------------------------------------------
  // Properties of the outdated section
  // ---------------------------------------------------------------------

  /** The summary reports the number of keys, and with packages the table has
      the header, the separator, exactly one row per package in key order,
      then the hint to run `npm outdated`. */
  lemma OutdatedTable(packages: OutdatedReport)
    requires packages != []
    ensures var lines := OutdatedLines(packages);
      var n := |Keys(packages)|;
      |lines| == n + 7
      && lines[1] == "<summary>Outdated Packages: " + NatToString(n) + "</summary>"
      && lines[3] == OUTDATED_HEADER && lines[4] == TABLE_SEPARATOR
      && (forall i :: 0 <= i < n ==>
            lines[5 + i] == OutdatedRow(Keys(packages)[i], packages[i].1))
      && lines[5 + n] == OUTDATED_HINT
  {
    var rows := OutdatedRows(packages);
    var body := OutdatedBody(packages);
    var summary := OutdatedSummary(|packages|);
    assert body == [OUTDATED_HEADER, TABLE_SEPARATOR] + rows + [OUTDATED_HINT];
    DetailsShape(summary, body);
    DetailsAt(summary, body, 0);
    DetailsAt(summary, body, 1);
    DetailsAt(summary, body, |rows| + 2);
    forall i | 0 <= i < |packages|
      ensures OutdatedLines(packages)[5 + i] == OutdatedRow(Keys(packages)[i], packages[i].1)
    {
      DetailsAt(summary, body, 2 + i);
    }
  }

  /** With nothing outdated the count is 0 and the body is the one message. */
  lemma OutdatedWithoutPackages(packages: OutdatedReport)
    requires packages == []
    ensures OutdatedLines(packages) == [DETAILS_OPEN, OutdatedSummary(0), "", NO_OUTDATED, DETAILS_CLOSE]
    ensures NatToString(0) == "0"
  {
  }

  lemma OutdatedBodyOneLine(packages: OutdatedReport)
    requires PackagesOneLine(packages)
    ensures AllOneLine(OutdatedBody(packages))
  {
    if packages == [] {
      NoOutdatedOneLine();
    } else {
      OutdatedHeaderOneLine();
      OutdatedHintOneLine();
      OutdatedRowsOneLine(packages);
      TableOneLine(OUTDATED_HEADER, OutdatedRows(packages), OUTDATED_HINT);
    }
  }

  /** Reading the markdown back line by line gives exactly the lines of the section. */
  lemma OutdatedReadBack(packages: OutdatedReport, section: OutdatedSection)
    requires PackagesOneLine(packages)
    requires section.markdown == JoinLines(OutdatedLines(packages))
    ensures Split(section.markdown, '\n') == OutdatedLines(packages) + [""]
  {
    assert OneLine(NatToString(|packages|));
    OutdatedBodyOneLine(packages);
    DetailsOneLine(OutdatedSummary(|packages|), OutdatedBody(packages));
    SplitJoinLines(OutdatedLines(packages));
  }
}
