/** The markdown table rows and list items that every version of the action
    renders in the same way. */
module Tables {
  import opened Text
  import opened Json

  // Longer literals are written as the concatenation of pieces, none of
  // which holds a line break; the text is the same as the source's.

  const ADVISORY_HEADER := "| Root Cause | Path | " + "Severity | Vulnerability |"
  const OUTDATED_HEADER := "| Package | Current | " + "Wanted | Latest |"
  const TABLE_SEPARATOR := "|--|--|--|--|"
  const DETAILS_OPEN := "<details>"
  const DETAILS_CLOSE := "</details>"

  lemma AdvisoryHeaderOneLine()
    ensures OneLine(ADVISORY_HEADER)
  {
  }

  lemma OutdatedHeaderOneLine()
    ensures OneLine(OUTDATED_HEADER)
  {
  }

  lemma SeparatorOneLine()
    ensures OneLine(TABLE_SEPARATOR)
  {
  }

  /** A collapsible block: `<details>`, the summary line, an empty line, the
      body, `</details>`. Every section of the report is made of these. */
  function Details(summary: string, body: seq<string>): seq<string>
  {
    [DETAILS_OPEN, summary, ""] + body + [DETAILS_CLOSE]
  }

  lemma DetailsOneLine(summary: string, body: seq<string>)
    requires OneLine(summary) && AllOneLine(body)
    ensures AllOneLine(Details(summary, body))
  {
    assert AllOneLine([DETAILS_OPEN, summary, ""]);
    AllOneLineAppend([DETAILS_OPEN, summary, ""], body);
    AllOneLineAppend([DETAILS_OPEN, summary, ""] + body, [DETAILS_CLOSE]);
  }

  /** A table (header, separator, rows) followed by a hint line. */
  lemma TableOneLine(header: string, rows: seq<string>, hint: string)
    requires OneLine(header) && AllOneLine(rows) && OneLine(hint)
    ensures AllOneLine([header, TABLE_SEPARATOR] + rows + [hint])
  {
    SeparatorOneLine();
    AllOneLineAppend([header, TABLE_SEPARATOR], rows);
    AllOneLineAppend([header, TABLE_SEPARATOR] + rows, [hint]);
  }

  /** `markdown += "<details>\n"; markdown += "<summary>…</summary>\n\n"`. */
  lemma EmitDetailsOpen(md: string, lines: seq<string>, summary: string)
    requires md == JoinLines(lines)
    ensures md + DETAILS_OPEN + "\n" + summary + "\n\n" == JoinLines(lines + [DETAILS_OPEN, summary, ""])
  {
    Emit(md, lines, DETAILS_OPEN);
    EmitBlank(md + DETAILS_OPEN + "\n", lines + [DETAILS_OPEN], summary);
    assert lines + [DETAILS_OPEN] + [summary, ""] == lines + [DETAILS_OPEN, summary, ""];
  }

  /** Writing a whole block: the opening, the summary, the rendered body and
      the closing tag, after `md`. */
  lemma EmitDetails(md: string, lines: seq<string>, summary: string, body: string, bodyLines: seq<string>)
    requires md == JoinLines(lines) && body == JoinLines(bodyLines)
    ensures md + DETAILS_OPEN + "\n" + summary + "\n\n" + body + DETAILS_CLOSE + "\n"
            == JoinLines(lines + Details(summary, bodyLines))
  {
    EmitDetailsOpen(md, lines, summary);
    var open := lines + [DETAILS_OPEN, summary, ""];
    EmitAll(md + DETAILS_OPEN + "\n" + summary + "\n\n", open, body, bodyLines);
    Emit(md + DETAILS_OPEN + "\n" + summary + "\n\n" + body, open + bodyLines, DETAILS_CLOSE);
    assert open + bodyLines + [DETAILS_CLOSE] == lines + Details(summary, bodyLines);
  }

  /** Where the fixed lines of a block sit. */
  lemma DetailsShape(summary: string, body: seq<string>)
    ensures var d := Details(summary, body);
      |d| == |body| + 4 && d[0] == DETAILS_OPEN && d[1] == summary && d[2] == ""
      && d[|body| + 3] == DETAILS_CLOSE
  {
  }

  /** Where a line of the body sits in its block. */
  lemma DetailsAt(summary: string, body: seq<string>, i: nat)
    requires i < |body|
    ensures Details(summary, body)[3 + i] == body[i]
  {
  }

  // ---------------------------------------------------------------------
  // Advisory rows
  // ---------------------------------------------------------------------

  /** Every advisory has a first finding, so `findings[0].paths` can be read. */
  predicate HasFindings(advisories: Object<Advisory>) {
    forall i :: 0 <= i < |advisories| ==> |advisories[i].1.findings| > 0
  }

  /** `findings[0].paths[0]`, which prints `undefined` when the path list is empty. */
  function FirstPath(a: Advisory): string
    requires |a.findings| > 0
  {
    if a.findings[0].paths == [] then "undefined" else a.findings[0].paths[0]
  }

  function AdvisoryRow(a: Advisory): string
    requires |a.findings| > 0
  {
    "| " + a.moduleName + " | " + FirstPath(a) + " | " + a.severity + " | " + a.title + " |"
  }

  /** One row per advisory, in key order. */
  function AdvisoryRows(advisories: Object<Advisory>): (rows: seq<string>)
    requires HasFindings(advisories)
  {
    seq(|advisories|, i requires 0 <= i < |advisories| && |advisories[i].1.findings| > 0 =>
      AdvisoryRow(advisories[i].1))
  }

  lemma AdvisoryRowsStep(advisories: Object<Advisory>, i: nat)
    requires i < |advisories| && HasFindings(advisories[..i + 1])
    ensures HasFindings(advisories[..i])
    ensures AdvisoryRows(advisories[..i + 1]) == AdvisoryRows(advisories[..i]) + [AdvisoryRow(advisories[i].1)]
  {
    assert forall k :: 0 <= k < i ==> advisories[..i][k] == advisories[..i + 1][k];
  }

  /** The printable fields of an advisory hold no line break. */
  predicate AdvisoryOneLine(a: Advisory) {
    OneLine(a.moduleName) && OneLine(a.severity) && OneLine(a.title)
    && (|a.findings| > 0 && a.findings[0].paths != [] ==> OneLine(a.findings[0].paths[0]))
  }

  predicate AdvisoriesOneLine(advisories: Object<Advisory>) {
    forall i :: 0 <= i < |advisories| ==> AdvisoryOneLine(advisories[i].1)
  }

  lemma AdvisoryRowsOneLine(advisories: Object<Advisory>)
    requires HasFindings(advisories) && AdvisoriesOneLine(advisories)
    ensures AllOneLine(AdvisoryRows(advisories))
  {
  }

  // ---------------------------------------------------------------------
  // Outdated rows
  // ---------------------------------------------------------------------

  function OutdatedRow(name: string, v: Versions): string
  {
    "| " + name + " | " + Show(v.current) + " | " + Show(v.wanted) + " | " + Show(v.latest) + " |"
  }

  /** One row per outdated package, in key order. */
  function OutdatedRows(packages: OutdatedReport): seq<string>
  {
    seq(|packages|, i requires 0 <= i < |packages| => OutdatedRow(packages[i].0, packages[i].1))
  }

  lemma OutdatedRowsStep(packages: OutdatedReport, i: nat)
    requires i < |packages|
    ensures OutdatedRows(packages[..i + 1]) == OutdatedRows(packages[..i]) + [OutdatedRow(packages[i].0, packages[i].1)]
  {
  }

  predicate ShowOneLine(field: Wrappers.Option<string>) {
    field.Some? ==> OneLine(field.value)
  }

  /** The package names and version strings hold no line break. */
  predicate PackagesOneLine(packages: OutdatedReport) {
    forall i :: 0 <= i < |packages| ==>
      OneLine(packages[i].0) && ShowOneLine(packages[i].1.current)
      && ShowOneLine(packages[i].1.wanted) && ShowOneLine(packages[i].1.latest)
  }

  lemma OutdatedRowsOneLine(packages: OutdatedReport)
    requires PackagesOneLine(packages)
    ensures AllOneLine(OutdatedRows(packages))
  {
  }

  // ---------------------------------------------------------------------
  // List items
  // ---------------------------------------------------------------------

  function Bullet(name: string): string
  {
    "* `" + name + "`"
  }

  /** One list item per name, in the order given. */
  function Bullets(names: seq<string>): seq<string>
  {
    seq(|names|, i requires 0 <= i < |names| => Bullet(names[i]))
  }

  lemma BulletsStep(names: seq<string>, i: nat)
    requires i < |names|
    ensures Bullets(names[..i + 1]) == Bullets(names[..i]) + [Bullet(names[i])]
  {
  }

  lemma BulletsOneLine(names: seq<string>)
    requires AllOneLine(names)
    ensures AllOneLine(Bullets(names))
  {
  }
}
