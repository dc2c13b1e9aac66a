# npm-audit-action, modelled in Dafny

npm-audit-action is a GitHub Action. It runs `npm audit`, `npm outdated` and
`npx depcheck` on a pull request and turns their JSON output into a markdown
comment for the pull request. It can also fail the run when packages are
outdated or vulnerable. This project models the renderer and the decisions
around it:

- the current action (`dist/index.js`): validation at load time, the audit,
  outdated and dependency-hygiene sections, the attribution footer, the
  comment and the two gates;
- the earlier action in `index.ts`: two tables truncated by the `elide`
  input, with the token checked only when a comment is posted;
- its compiled form, `index.js`: the same, plus hint lines and an "elided"
  notice.

The tool outputs arrive as already-decoded values (`Json`). A JSON object is
a sequence of key/value pairs in `Object.keys` order. An absent field
(`current`, `wanted`, `latest`, `GITHUB_SHA`) is an `Option`, and an empty
`paths` list stands for a missing first path; both print as `undefined`, as a
JavaScript template literal does.

The source grows a string with `+=` inside loops. Each section is therefore a
method that does the same, and it is proved equal to `JoinLines` of a list of
lines (`AuditLines`, `OutdatedLines`, `DepcheckLines`, ...). Lemmas about those
line lists state the layout. For the audit and outdated sections, read-back
lemmas (`AuditReadBack`, `OutdatedReadBack`) show that splitting the markdown
at `'\n'` gives the lines back exactly.

Side effects become values in a `RunResult`:

- which tools were invoked;
- the outputs set with `setOutput`;
- the comment that would be posted (owner, repository, issue number, body);
- a status: `Passed`, `Failed(message)` (`setFailed`) or `Crashed(fault)`.

`Crashed` is an exception that no `try` handles. It arises in two places:

- reading `findings[0]` of an advisory without findings;
- the token error, which `index.ts` throws inside a child-process callback.

Modules: `Wrappers`, `Text` (decimal printing, lines, split, lexicographic
order and sort), `Json`, `Context`, `Tables` (row formats shared by all
variants), `Audit`, `Outdated`, `Depcheck`, `Action` (dist/index.js),
`LegacyTs` (index.ts), `LegacyJs` (index.js).

## Model

| member | source | states |
|---|---|---|
| Text.NatToString | dist/index.js:44 | a count prints as a non-empty string of decimal digits, with a leading `0` exactly when the count is 0 |
| Text.DecimalRoundTrip | dist/index.js:44 | reading the printed digits back as a decimal number gives the count again |
| Text.NatToStringInjective | dist/index.js:44 | two different counts never print the same |
| Text.Sort | dist/index.js:109 | `.sort()` gives an ascending arrangement of the same names: sorted, same multiset, same length |
| Text.SortedUnique | dist/index.js:109 | two ascending arrangements of the same multiset are equal, so the order does not depend on the sorting algorithm |
| Text.SortKeepsNames | dist/index.js:109 | a name is in the sorted list if and only if it is in the list |
| Context.OwnerAndRepoOfSlug | dist/index.js:165 | splitting `owner/name` at `/` gives back the owner and the name |
| Context.OwnerIsPrefix | dist/index.js:165 | the owner has no `/`; the repository part is absent exactly when there is no `/`; otherwise the slug starts with the owner and `/` |
| Action.Validate | dist/index.js:25-36 | the run starts only with event `pull_request`, a repository and a token; otherwise it fails with the event, the repository or the token message, checked in that order |
| Audit.RunAudit | dist/index.js:40-67 | the total is low+moderate+high+critical, set as an output and returned for gating; the section renders exactly when every advisory has a finding, and then equals `JoinLines(AuditLines(report))` |
| Audit.AuditBodyText | dist/index.js:49-61 | the text after the summary is the no-issues message or the table and hint; it crashes exactly when some advisory has no finding |
| Audit.AdvisoryTableRows | dist/index.js:56-59 | the loop renders one row per advisory in key order, or crashes on the first advisory without findings |
| Audit.AuditFrame | dist/index.js:44-62 | the section starts with `Total Dependencies: **N**` and its line break, and always ends with `</details>\n` |
| Audit.AuditWithoutAdvisories | dist/index.js:49-52 | with no advisory the section renders, its body line is the no-issues message, and it contains no `|`, so no table |
| Audit.AuditTable | dist/index.js:53-61 | with advisories: header, separator, exactly one row per advisory in key order, then the `npm audit` hint |
| Audit.AuditReadBack | dist/index.js:40-67 | splitting the section at line breaks gives exactly its lines |
| Outdated.RunOutdated | dist/index.js:71-94 | the outdated count is the number of keys, and the markdown equals `JoinLines(OutdatedLines(packages))` |
| Outdated.OutdatedBodyText | dist/index.js:77-88 | the text after the summary is the no-outdated message, or the table and the hint |
| Outdated.OutdatedTableRows | dist/index.js:83-86 | the loop renders one row per package, in key order |
| Outdated.OutdatedTable | dist/index.js:74-92 | the summary shows the key count, and the table has header, separator, exactly one row per key in key order, then the hint |
| Outdated.OutdatedWithoutPackages | dist/index.js:76-79 | with nothing outdated the count is 0 and the body is the single message |
| Outdated.OutdatedReadBack | dist/index.js:71-94 | splitting the section at line breaks gives exactly its lines |
| Depcheck.RunDepcheck | dist/index.js:100-144 | the section is the production list, then the development list, then the missing list |
| Depcheck.RenderList | dist/index.js:103-115 | one block: the summary with the list's length, then the body, then `</details>` |
| Depcheck.ListBodyText | dist/index.js:105-114 | the body is the empty-list message, or the sorted items followed by the `npx depcheck` hint |
| Depcheck.BulletText | dist/index.js:110-112 | the loop renders one item per name, in order |
| Depcheck.ListItems | dist/index.js:104-114 | a non-empty list has the count line, one item per element of `Sort(names)` in order, then the hint |
| Depcheck.ListSorted | dist/index.js:104-114 | the count is the list's length, and the items are some ascending permutation of the names, one per element |
| Depcheck.ListOrderIsDetermined | dist/index.js:109 | any ascending permutation of the names is the order rendered |
| Depcheck.BulletNameOfBullet | dist/index.js:111 | a list item gives back the name inside it |
| Depcheck.ListItemsAreNames | dist/index.js:104-114 | a name has an item in a list if and only if depcheck reported it |
| Depcheck.MissingList | dist/index.js:129-134 | the missing names are exactly the keys of `missing`; with no key the body is only "No missing packages :smile:", otherwise that message does not appear |
| Depcheck.SortExample | dist/index.js:109 | `["zeta", "alpha"]` is listed as `alpha`, then `zeta` |
| Action.Compose | dist/index.js:149-161 | the report is the three sections appended in order, then the footer unless attribution is elided |
| Action.ReportOrder | dist/index.js:149-155 | the report starts with the audit section, then the outdated section, then the hygiene section, whatever the footer |
| Action.DepcheckEnding | dist/index.js:142 | the hygiene section always ends with `</details>\n` |
| Action.ElidedEnding | dist/index.js:156-161 | with attribution elided the report ends as the hygiene section does |
| Action.AttributedEnding | dist/index.js:156-161 | without elision the report ends with the line naming the commit (or `undefined`) and `</p>` |
| Action.FooterIffAttributed | dist/index.js:156-161 | given a hygiene section that ends with `</details>\n` (as `DepcheckEnding` proves it does), the report ends with the footer's `</p>\n` if and only if `elideAttribution` is false |
| Action.Gate | dist/index.js:173-180 | the gates never crash; the run passes if and only if neither gate fires |
| Action.GateOrder | dist/index.js:173-180 | the run fails with the outdated message if and only if `fail-on-outdated` is set and something is outdated; it fails with the vulnerability message if and only if that gate did not fire and `fail-on-vulnerability` is set with vulnerabilities present |
| Action.MessagesDiffer | dist/index.js:174-178 | the outdated and vulnerability messages never coincide, whatever the counts |
| Action.CountPrefix | dist/index.js:174-178 | a printed count followed by a non-digit text is read back uniquely |
| Action.Run | dist/index.js:148-181 | validation failure: nothing runs. Missing findings: only the audit ran, outputs set, no comment, crash. Otherwise: all three tools ran, outputs set, the comment (when asked) is the full report for `owner/repo` and the pull request number whatever the gates decide, and the status is `Gate` of the outdated count and the total |
| LegacyTs.ValidateLegacy | index.ts:21-26 | the event is checked before the repository, each with its message; the token is not checked here |
| LegacyTs.TokenCheckMoved | index.ts:77-80 | where the current action fails for want of a token, this one still starts; otherwise the two validations agree |
| LegacyTs.ElidedAdvisoryRows | index.ts:45-52 | the loop renders the rows of the first `ShownRows(elide, n)` advisories in key order; only those are read, so only they can crash |
| LegacyTs.ElidedOutdatedRows | index.ts:67-74 | the loop renders the rows of the first `ShownRows(elide, n)` packages in key order |
| LegacyTs.ElideRule | index.ts:45-48 | with `elide = 0` all rows; with `elide > 0` exactly min(n, elide+1) rows |
| LegacyTs.AuditHeadText | index.ts:36-43 | `## Total Dependencies: N`, `### Vulnerabilities (V)` with V the sum of the severities, then the header and separator; the outputs are set on the way |
| LegacyTs.AuditPart | index.ts:36-53 | the audit part is the head, the shown rows and an empty line; it crashes exactly when a shown advisory has no finding |
| LegacyTs.AuditPartLayout | index.ts:37-53 | header and separator are present even with no advisory; rows follow in key order, then the empty line |
| LegacyTs.OutdatedPart | index.ts:62-75 | the outdated part is the heading with the full key count, header, separator, the shown rows and an empty line |
| LegacyTs.OutdatedPartLayout | index.ts:64-75 | the count is every key even when rows are elided; the first `ShownRows` rows follow in key order |
| LegacyTs.CommentOrder | index.ts:53-75 | the comment is the audit part followed by the outdated part |
| LegacyTs.Run | index.ts:20-95 | validation failure: setFailed, nothing runs. Missing findings among shown advisories: crash after the audit. Otherwise no comment without `comment-pr`; with it, a missing token crashes, and a present one posts the comment body |
| LegacyTs.ElideOffByOne | index.ts:46 | as written: with `elide > 0` and more rows than `elide`, `elide + 1` rows are shown (`elide = 1`, two rows: both shown) |
| LegacyTs.IntendedRows | index.ts:46 | corrected: never more than `elide` rows when `elide > 0`, and either all rows or exactly `elide` |
| LegacyTs.IntendedOutdatedRows | index.ts:67-74 | the loop with `i >= elide` renders exactly the first `IntendedRows` rows |
| LegacyTs.IntendedRowsDiffer | index.ts:46 | the two rules differ by exactly one row, and only when rows are elided |
| LegacyJs.AuditPartJs | index.js:31-48 | as in index.ts, with "> to observe and fix issues, run `npm audit`" and an empty line after the rows |
| LegacyJs.OutdatedPartJs | index.js:56-69 | as in index.ts, with the `npm outdated` hint and an empty line after the rows |
| LegacyJs.RunJs | index.js:17-92 | as `LegacyTs.Run`, with the notice appended to the body when `elide > 0` |
| LegacyJs.HintsOnly | index.js:48-69 | each part is the index.ts part with its hint line inserted before the empty line |
| LegacyJs.NoticeIffElided | index.js:69-72 | with `elide > 0` the body ends with "> some results may be elided for brevity."; the body ends with a line break exactly when `elide = 0` |

## Left out

- Spawning the tools (`dist/Exec.js`, the child-process callbacks of
  index.ts and index.js) is left out. The model takes their output as
  parameters.
- Counts (`totalDependencies`, the four vulnerability counts, list lengths)
  are JavaScript numbers; the model treats them as exact naturals. The sum at
  `dist/index.js:45` is exact only below 2^53, and `Text.NatToString` agrees
  with `${n}` only below 10^21, where JavaScript switches to exponent form.
- `JSON.parse` is left out. Malformed output, or output with a missing field,
  is not modelled; the decoded values are given.
- The order of `Object.keys` comes from the runtime (integer-like keys first).
  The model takes key order as the given sequence order.
- `core.getInput`, `process.env`, `setOutput`, `setFailed` and `process.exit`
  are not modelled as effects. They become parameters and the returned
  `RunResult`.
- The Octokit `createComment` call is not modelled. The model returns only
  the comment it would post. The promise that index.ts does not await is not
  modelled either.
- The asynchronous error path of `Main` (dist/index.js:185-190) is reduced to
  the `Crashed` status.
- `Number(core.getInput("elide"))` is not modelled. `elide` is a `nat`, so
  negative, fractional and `NaN` values are not covered.
- `Text.Sort`: JavaScript's default `sort()` compares UTF-16 code units. The
  model compares strings character by character. The two agree on text
  without characters outside the Basic Multilingual Plane.
- `Text.Sort`: the source sorts the arrays in place and reassigns them. The
  model sorts a value.
- The pull-request number is a given `nat`. An event payload without a pull
  request is not modelled.
- The misspelling "vulerabilitie(s)" in the vulnerability gate message is kept
  as written.

## Findings

| source | as written | input that shows it | evidently intended | confidence | as-written member | corrected member |
|---|---|---|---|---|---|---|
| index.ts:46 and :68; index.js:41 and :62, the same test in the advisory and outdated loops | the loop breaks only when the index is greater than `elide`, so `elide + 1` rows are shown | `elide = 1` with two advisories: both rows are rendered | show at most `elide` rows (break when the index reaches `elide`) | medium, not executed | LegacyTs.ElideOffByOne | LegacyTs.IntendedRows |

The runs of index.ts and index.js (`LegacyTs.Run`, `LegacyJs.RunJs`) model
the shipped behaviour, so they keep the as-written rule (`ShownRows`).
`LegacyTs.IntendedOutdatedRows` is the corrected loop, proved to render
exactly `IntendedRows` rows.
