/**
  The records of `models.rs`. Timestamps are whole seconds since the Unix epoch; the
  `u32` counters are naturals (bounding them is the decoder's business).
 */
module Models {
  import opened Outcomes

  /** `GitHubProvider`: the remote URL and the token it authenticates with
      (the HTTP client object has no behaviour of its own here). */
  datatype GitHubProvider = GitHubProvider(remoteUrl: string, token: string)

  datatype User = User(login: string)

  datatype Label = Label(name: string)

  /** `BasicGitHubPR`: one entry of the open-PR list. */
  datatype BasicPR = BasicPR(number: nat, title: string, user: User, createdAt: int)

  /** `GitHubPR`: the full record of one PR. */
  datatype GitHubPR = GitHubPR(
    number: nat,
    title: string,
    user: User,
    createdAt: int,
    body: Option<string>,
    labels: seq<Label>,
    commits: nat,
    changedFiles: nat)

  /** A PR paired with its age in whole days, the element `list_pull_requests` sorts. */
  datatype AgedPR = AgedPR(pr: GitHubPR, ageDays: int)

  /** `DisplayPR`: one row of the PR list table. */
  datatype DisplayPR = DisplayPR(
    number: string,
    title: string,
    author: string,
    age: string,
    commits: string,
    files: string,
    labels: string,
    description: string)

  /** `PRDetailsRow`: one row of the PR details table, one per commit. */
  datatype PRDetailsRow = PRDetailsRow(
    prNumber: string,
    title: string,
    status: string,
    age: string,
    githubUsername: string,
    commitSha: string,
    changedFiles: string)

  /** How a command that does not return a `Result` ends the process:
      it returns normally, calls `std::process::exit(code)`, or panics in `expect`. */
  datatype Termination = Returned | Exited(code: int) | Panicked(message: string)
}
