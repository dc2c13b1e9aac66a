/** What a run of the action sees and what it leaves behind. The environment
    variables and action inputs are parameters; the outputs it sets, the
    tools it launches, the comment it posts and the way it ends are returned
    as a `RunResult` instead of being side effects. */
module Context {
  import opened Wrappers
  import opened Text

  /** GITHUB_EVENT_NAME, GITHUB_REPOSITORY, GITHUB_TOKEN, GITHUB_SHA and the
      number of the pull request in the event payload. */
  datatype Env = Env(
    eventName: Option<string>,
    repository: Option<string>,
    token: Option<string>,
    sha: Option<string>,
    prNumber: nat)

  /** A JavaScript truth test on an environment variable: set and not empty. */
  predicate Truthy(v: Option<string>) {
    v.Some? && v.value != ""
  }

  /** The values given to `core.setOutput`. */
  datatype Outputs = Outputs(totalDependencies: nat, totalVulnerabilities: nat)

  /** The argument of `createComment`. */
  datatype Comment = Comment(owner: string, repo: Option<string>, issueNumber: nat, body: string)

  /** The tools the action launches, in the order it launches them. */
  datatype Tool = NpmAudit | NpmOutdated | Depcheck

  /** An exception nobody catches: reading `paths` of the missing first
      finding of an advisory, or an `Error` thrown with a message. */
  datatype Fault = MissingFindings | Thrown(message: string)

  /** Passed; failed through `core.setFailed` with a message; or ended by an
      uncaught exception. */
  datatype Status = Passed | Failed(message: string) | Crashed(fault: Fault)

  datatype RunResult = RunResult(
    invoked: seq<Tool>,
    outputs: Option<Outputs>,
    comment: Option<Comment>,
    status: Status)

  /** The outcome of a validation step. */
  datatype Check = Pass | Fail(message: string)

  const EVENT_MESSAGE := "this action can only run in response to pull request events; GITHUB_EVENT_NAME !== pull_request"
  const REPOSITORY_MESSAGE := "action was not ran in the context of a github repository; GITHUB_REPOSITORY env not provided"
  const TOKEN_MESSAGE := "GITHUB_TOKEN not found"

  /** `const [owner, repo] = repository.split("/")`: the piece before the
      first slash, and the piece after it if there is a slash. */
  function OwnerAndRepo(repository: string): (string, Option<string>)
  {
    var parts := Split(repository, '/');
    (parts[0], if |parts| > 1 then Some(parts[1]) else None)
  }

  /** For `owner/name` the split gives back the owner and the name. */
  lemma OwnerAndRepoOfSlug(owner: string, name: string)
    requires '/' !in owner && '/' !in name
    ensures OwnerAndRepo(owner + "/" + name) == (owner, Some(name))
  {
    var s := owner + "/" + name;
    assert s == owner + ['/'] + name;
    IndexOfAt(owner, '/', name);
    assert s[..|owner|] == owner && s[|owner| + 1..] == name;
    assert forall k :: 0 <= k < |name| ==> name[k] != '/';
    assert Split(name, '/') == [name];
    assert Split(s, '/') == [owner] + [name];
  }

  /** The owner is the whole repository up to its first slash, and holds none. */
  lemma OwnerIsPrefix(repository: string)
    ensures var (owner, repo) := OwnerAndRepo(repository);
      '/' !in owner
      && (repo.None? <==> '/' !in repository)
      && (repo.Some? ==> repository[..|owner| + 1] == owner + "/")
  {
    var parts := Split(repository, '/');
    var i := IndexOf(repository, '/');
    if i < |repository| {
      assert parts == [repository[..i]] + Split(repository[i + 1..], '/');
      assert |parts| > 1 && parts[0] == repository[..i];
      assert forall k :: 0 <= k < i ==> repository[..i][k] != '/';
      assert repository[..i + 1] == repository[..i] + "/";
      assert '/' in repository;
    } else {
      assert parts == [repository];
      assert forall k :: 0 <= k < |repository| ==> repository[k] != '/';
    }
  }
}
