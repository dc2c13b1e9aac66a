/** The already-decoded output of the three tools the action runs, as the
    renderer reads it. A JSON object is the sequence of its entries in
    `Object.keys` order. */
module Json {
  import opened Wrappers

  /** A JSON object: its keys in `Object.keys` order, each with its value. */
  type Object<V> = seq<(string, V)>

  function Keys<V>(o: Object<V>): (keys: seq<string>)
    ensures |keys| == |o|
    ensures forall i :: 0 <= i < |o| ==> keys[i] == o[i].0
  {
    seq(|o|, i requires 0 <= i < |o| => o[i].0)
  }

  /** How a template literal prints a string field that may be absent. */
  function Show(field: Option<string>): string
  {
    match field
    case Some(s) => s
    case None => "undefined"
  }

  // ---------------------------------------------------------------------
  // `npm audit --json`
  // ---------------------------------------------------------------------

  datatype Finding = Finding(paths: seq<string>)

  datatype Advisory = Advisory(
    moduleName: string,
    findings: seq<Finding>,
    severity: string,
    title: string)

  datatype Severities = Severities(low: nat, moderate: nat, high: nat, critical: nat)

  /** `{ advisories, metadata: { totalDependencies, vulnerabilities } }`. */
  datatype AuditReport = AuditReport(
    advisories: Object<Advisory>,
    totalDependencies: nat,
    vulnerabilities: Severities)

  // ---------------------------------------------------------------------
  // `npm outdated --json`: package name to its versions
  // ---------------------------------------------------------------------

  /** `{ current, wanted, latest }`; npm leaves `current` out for a package
      that is not installed. */
  datatype Versions = Versions(current: Option<string>, wanted: Option<string>, latest: Option<string>)

  type OutdatedReport = Object<Versions>

  // ---------------------------------------------------------------------
  // `npx depcheck --json`
  // ---------------------------------------------------------------------

  /** `{ dependencies, devDependencies, missing }`, where `missing` maps each
      missing package to the files that use it. */
  datatype DepcheckReport = DepcheckReport(
    dependencies: seq<string>,
    devDependencies: seq<string>,
    missing: Object<seq<string>>)
}
