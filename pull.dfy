/**
  `pull_pr` and `show_diff` of `github.rs`: the API lookups that precede a pull, the
  branch plan derived from the PR record, and the git commands run on that plan. A git
  command is abstract: the model records its arguments and asks `git` how it ended.
 */
module GitHubPull {
  import opened Outcomes
  import opened Text
  import opened Json
  import opened Models
  import opened Http
  import GitHub

  /** How `Command::status()` ends: the process could not be started, or it ran
      and exited with a success flag. */
  datatype Launch = CannotLaunch(reason: string) | Finished(success: bool)

  // ---- the branch plan ----

  /** What `pull_pr` does locally: whether the PR comes from a fork, the branch it
      creates, the refspec it fetches into that branch, and the upstream it tracks. */
  datatype BranchPlan = BranchPlan(isFork: bool, localBranch: string, refspec: string, upstream: Option<string>)

  /** A PR from the same repository is fetched under its own head ref and tracks
      `origin/<ref>`; a PR from a fork is fetched read-only from `pull/<n>/head` into
      `<owner>-pr-<n>`. The test is exact string equality of the repo full names. */
  function PlanBranch(prNumber: string, headRef: string, headRepo: string, headOwner: string, baseRepo: string)
    : (plan: BranchPlan)
    ensures plan.isFork <==> headRepo != baseRepo
    ensures plan.upstream.Some? <==> !plan.isFork
  {
    if headRepo == baseRepo then
      BranchPlan(false, headRef, headRef + ":" + headRef, Some("origin/" + headRef))
    else
      var local := headOwner + "-pr-" + prNumber;
      BranchPlan(true, local, "pull/" + prNumber + "/head:" + local, None)
  }

  function HeadRef(pr: Json.Value): string {
    StrOr(Field(Field(pr, "head"), "ref"), "")
  }

  function HeadRepo(pr: Json.Value): string {
    StrOr(Field(Field(Field(pr, "head"), "repo"), "full_name"), "")
  }

  function HeadOwner(pr: Json.Value): string {
    StrOr(Field(Field(Field(Field(pr, "head"), "repo"), "owner"), "login"), "")
  }

  function BaseRepo(pr: Json.Value): string {
    StrOr(Field(Field(Field(pr, "base"), "repo"), "full_name"), "")
  }

  /** The plan for a PR record; a missing or non-string field reads as "". */
  function PlanFromPr(pr: Json.Value, prNumber: string): (plan: BranchPlan)
    ensures plan.isFork <==> HeadRepo(pr) != BaseRepo(pr)
    ensures plan.isFork ==> plan.localBranch == HeadOwner(pr) + "-pr-" + prNumber
    ensures !plan.isFork ==> plan.localBranch == HeadRef(pr)
    ensures plan.upstream.Some? <==> !plan.isFork
  {
    PlanBranch(prNumber, HeadRef(pr), HeadRepo(pr), HeadOwner(pr), BaseRepo(pr))
  }

  /** Both shapes of the plan, as the two scenarios of `pull_pr` describe them. */
  lemma PlanBranchShape(prNumber: string, headRef: string, headRepo: string, headOwner: string, baseRepo: string)
    ensures var plan := PlanBranch(prNumber, headRef, headRepo, headOwner, baseRepo);
      && (plan.isFork <==> headRepo != baseRepo)
      && (!plan.isFork ==>
            plan.localBranch == headRef && plan.refspec == headRef + ":" + headRef
            && plan.upstream == Some("origin/" + headRef))
      && (plan.isFork ==>
            plan.localBranch == headOwner + "-pr-" + prNumber
            && plan.refspec == "pull/" + prNumber + "/head:" + plan.localBranch
            && plan.upstream == None)
  {
  }

  /** Whatever the plan, the fetch writes the very branch that is then checked out. */
  lemma FetchWritesCheckedOutBranch(prNumber: string, headRef: string, headRepo: string, headOwner: string, baseRepo: string)
    ensures var plan := PlanBranch(prNumber, headRef, headRepo, headOwner, baseRepo);
      EndsWith(plan.refspec, ":" + plan.localBranch)
  {
    var plan := PlanBranch(prNumber, headRef, headRepo, headOwner, baseRepo);
    var front := if plan.isFork then "pull/" + prNumber + "/head" else headRef;
    assert plan.refspec == front + (":" + plan.localBranch);
  }

  /** Two PRs of the same fork owner never share a local branch. */
  lemma ForkBranchesDistinct(owner: string, n1: string, n2: string, headRef: string, headRepo: string, baseRepo: string)
    requires headRepo != baseRepo
    requires n1 != n2
    ensures PlanBranch(n1, headRef, headRepo, owner, baseRepo).localBranch
         != PlanBranch(n2, headRef, headRepo, owner, baseRepo).localBranch
  {
    var b1 := owner + "-pr-" + n1;
    var b2 := owner + "-pr-" + n2;
    assert n1 == b1[|owner| + 4..];
    assert n2 == b2[|owner| + 4..];
  }

  /** The comparison is case-sensitive: names differing only in case make a fork. */
  lemma PlanIsCaseSensitive()
    ensures PlanBranch("7", "fix", "Alice/tool", "alice", "alice/tool").isFork
  {
    assert "Alice/tool"[0] != "alice/tool"[0];
  }

  /** A record with none of the fields counts as same-repository, and plans to fetch
      the empty ref into the empty branch name. */
  lemma PlanForEmptyRecord(prNumber: string)
    ensures PlanFromPr(Null, prNumber) == BranchPlan(false, "", ":", Some("origin/"))
  {
    assert HeadRef(Null) == "" && HeadRepo(Null) == "" && BaseRepo(Null) == "";
    assert "" + ":" + "" == ":";
    assert "origin/" + "" == "origin/";
  }

  // ---- git commands ----

  function FetchArgs(plan: BranchPlan): seq<string> {
    ["fetch", "origin", plan.refspec]
  }

  function CheckoutArgs(plan: BranchPlan): seq<string> {
    ["checkout", plan.localBranch]
  }

  function UpstreamArgs(upstream: string, localBranch: string): seq<string> {
    ["branch", "--set-upstream-to", upstream, localBranch]
  }

  // ---- the lookups before the pull ----

  /** What `pull_pr` reports on its way out. */
  datatype PullReport =
    | Silent                                       // a panic, or nothing yet
    | NoRepoDetails                                // "Could not infer owner/repo."
    | PrFetchFailed(status: int)                   // "Failed to fetch PR: <status>"
    | Tracking(branch: string, upstream: string)   // "Switched to branch .. tracking .."
    | ReadOnly(branch: string, prNumber: string)   // "Switched to branch ..", read-only checkout
    | ForkFetchFailed                              // "Failed to fetch PR."
    | CheckoutFailed                               // "Failed to checkout PR branch."

  /** The API part of `pull_pr`: it either ends the command or yields the branch plan. */
  datatype Prelude =
    | Halt(requests: seq<Request>, report: PullReport, ends: Termination)
    | Ready(requests: seq<Request>, plan: BranchPlan)

  /** The owner/repo lookup, the PR fetch (status checked, then the body parsed) and
      the `/user` fetch (its status unchecked, its login unused). */
  function Prepare(p: GitHubProvider, host: Host, prNumber: string): (pre: Prelude)
    ensures pre.Halt? ==> pre.ends != Returned
  {
    match GitHub.InferRepoDetails(p.remoteUrl)
    case None => Halt([], NoRepoDetails, Exited(1))
    case Some((owner, repo)) =>
      var prUrl := GitHub.PullUrl(owner, repo, prNumber);
      match host.value(prUrl)
      case Unreachable(_) => Halt([Get(prUrl)], Silent, Panicked("Failed to fetch PR info"))
      case Answered(status, _, body) =>
        if !IsSuccess(status) then Halt([Get(prUrl)], PrFetchFailed(status), Exited(1))
        else
          match body
          case Malformed(_) => Halt([Get(prUrl)], Silent, Panicked("Failed to parse PR JSON"))
          case Parsed(pr) =>
            var requests := [Get(prUrl), Get(GitHub.UserUrl)];
            match host.value(GitHub.UserUrl)
            case Unreachable(_) => Halt(requests, Silent, Panicked("Failed to fetch authenticated user"))
            case Answered(_, _, Malformed(_)) => Halt(requests, Silent, Panicked("Failed to parse user JSON"))
            case Answered(_, _, Parsed(_)) => Ready(requests, PlanFromPr(pr, prNumber))
  }

  /** A pull goes ahead only on a 2xx, parseable PR record, and its plan is the plan
      of that record. */
  lemma ReadyNeedsPrRecord(p: GitHubProvider, host: Host, prNumber: string)
    requires Prepare(p, host, prNumber).Ready?
    ensures GitHub.InferRepoDetails(p.remoteUrl).Some?
    ensures var (owner, repo) := GitHub.InferRepoDetails(p.remoteUrl).value;
      var reply := host.value(GitHub.PullUrl(owner, repo, prNumber));
      && reply.Answered? && IsSuccess(reply.status) && reply.body.Parsed?
      && Prepare(p, host, prNumber).plan == PlanFromPr(reply.body.value, prNumber)
      && Prepare(p, host, prNumber).requests == [Get(GitHub.PullUrl(owner, repo, prNumber)), Get(GitHub.UserUrl)]
  {
  }

  /** The status of the `/user` answer is never looked at. */
  lemma PrepareIgnoresUserStatus(p: GitHubProvider, host: Host, prNumber: string, status: int)
    requires host.value(GitHub.UserUrl).Answered?
    ensures var r := host.value(GitHub.UserUrl);
      var host' := host.(value := u => if u == GitHub.UserUrl then Answered(status, r.text, r.body) else host.value(u));
      Prepare(p, host', prNumber) == Prepare(p, host, prNumber)
  {
    var r := host.value(GitHub.UserUrl);
    var host' := host.(value := u => if u == GitHub.UserUrl then Answered(status, r.text, r.body) else host.value(u));
    match GitHub.InferRepoDetails(p.remoteUrl)
    case None =>
    case Some((owner, repo)) =>
      var prUrl := GitHub.PullUrl(owner, repo, prNumber);
      assert |prUrl| > |GitHub.UserUrl|;
      assert host'.value(prUrl) == host.value(prUrl);
  }

  // ---- pull_pr ----

  /** `pull_pr`: the lookups, then the git commands of the plan. The same-repository
      path runs its three commands and discards their statuses; the fork path stops at a
      failed fetch (exit 1) and reports, without exiting, a failed checkout. */
  method PullPr(p: GitHubProvider, host: Host, git: seq<string> -> Launch, prNumber: string)
    returns (requests: seq<Request>, commands: seq<seq<string>>, report: PullReport, ends: Termination)
    ensures var pre := Prepare(p, host, prNumber);
      pre.Halt? ==> requests == pre.requests && commands == [] && report == pre.report && ends == pre.ends
    ensures var pre := Prepare(p, host, prNumber);
      pre.Ready? && !pre.plan.isFork ==>
        && requests == pre.requests
        && commands == [FetchArgs(pre.plan), CheckoutArgs(pre.plan),
                        UpstreamArgs(pre.plan.upstream.value, pre.plan.localBranch)]
        && report == Tracking(pre.plan.localBranch, pre.plan.upstream.value)
        && ends == Returned
    ensures var pre := Prepare(p, host, prNumber);
      pre.Ready? && pre.plan.isFork ==>
        && requests == pre.requests
        && 1 <= |commands| <= 2 && commands[0] == FetchArgs(pre.plan)
        && (|commands| == 2 <==> git(FetchArgs(pre.plan)) == Finished(true))
        && (git(FetchArgs(pre.plan)).CannotLaunch? ==> report == Silent && ends == Panicked("Failed to fetch PR"))
        && (git(FetchArgs(pre.plan)) == Finished(false) ==> report == ForkFetchFailed && ends == Exited(1))
        && (|commands| == 2 ==>
              && commands[1] == CheckoutArgs(pre.plan)
              && (git(CheckoutArgs(pre.plan)).CannotLaunch? ==>
                    report == Silent && ends == Panicked("Failed to checkout PR branch"))
              && (git(CheckoutArgs(pre.plan)) == Finished(true) ==>
                    report == ReadOnly(pre.plan.localBranch, prNumber) && ends == Returned)
              && (git(CheckoutArgs(pre.plan)) == Finished(false) ==>
                    report == CheckoutFailed && ends == Returned))
  {
    requests, commands, report, ends := [], [], Silent, Returned;
    var details := GitHub.InferRepoDetails(p.remoteUrl);
    if details.None? {
      report, ends := NoRepoDetails, Exited(1);
      return;
    }
    var (owner, repo) := details.value;
    var prUrl := GitHub.PullUrl(owner, repo, prNumber);
    requests := requests + [Get(prUrl)];
    var prReply := host.value(prUrl);
    if prReply.Unreachable? {
      ends := Panicked("Failed to fetch PR info");
      return;
    }
    if !IsSuccess(prReply.status) {
      report, ends := PrFetchFailed(prReply.status), Exited(1);
      return;
    }
    if prReply.body.Malformed? {
      ends := Panicked("Failed to parse PR JSON");
      return;
    }
    var plan := PlanFromPr(prReply.body.value, prNumber);
    requests := requests + [Get(GitHub.UserUrl)];
    var userReply := host.value(GitHub.UserUrl);
    if userReply.Unreachable? {
      ends := Panicked("Failed to fetch authenticated user");
      return;
    }
    if userReply.body.Malformed? {
      ends := Panicked("Failed to parse user JSON");
      return;
    }

    commands, report, ends := RunPlan(plan, prNumber, git);
  }

  /** The git part of `pull_pr`: three commands whose statuses are dropped for a
      same-repository PR; for a fork, the fetch and then the checkout, each ending the
      command when it cannot be started or fails. */
  method RunPlan(plan: BranchPlan, prNumber: string, git: seq<string> -> Launch)
    returns (commands: seq<seq<string>>, report: PullReport, ends: Termination)
    requires plan.upstream.Some? <==> !plan.isFork
    ensures !plan.isFork ==>
      && commands == [FetchArgs(plan), CheckoutArgs(plan), UpstreamArgs(plan.upstream.value, plan.localBranch)]
      && report == Tracking(plan.localBranch, plan.upstream.value)
      && ends == Returned
    ensures plan.isFork ==>
      && 1 <= |commands| <= 2 && commands[0] == FetchArgs(plan)
      && (|commands| == 2 <==> git(FetchArgs(plan)) == Finished(true))
      && (git(FetchArgs(plan)).CannotLaunch? ==> report == Silent && ends == Panicked("Failed to fetch PR"))
      && (git(FetchArgs(plan)) == Finished(false) ==> report == ForkFetchFailed && ends == Exited(1))
      && (|commands| == 2 ==>
            && commands[1] == CheckoutArgs(plan)
            && (git(CheckoutArgs(plan)).CannotLaunch? ==>
                  report == Silent && ends == Panicked("Failed to checkout PR branch"))
            && (git(CheckoutArgs(plan)) == Finished(true) ==>
                  report == ReadOnly(plan.localBranch, prNumber) && ends == Returned)
            && (git(CheckoutArgs(plan)) == Finished(false) ==>
                  report == CheckoutFailed && ends == Returned))
  {
    commands, report, ends := [], Silent, Returned;
    if !plan.isFork {
      // each status is dropped with `let _ =`
      commands := commands + [FetchArgs(plan)];
      commands := commands + [CheckoutArgs(plan)];
      commands := commands + [UpstreamArgs(plan.upstream.value, plan.localBranch)];
      report := Tracking(plan.localBranch, plan.upstream.value);
      return;
    }

    commands := commands + [FetchArgs(plan)];
    var fetch := git(FetchArgs(plan));
    if fetch.CannotLaunch? {
      ends := Panicked("Failed to fetch PR");
      return;
    }
    if !fetch.success {
      report, ends := ForkFetchFailed, Exited(1);
      return;
    }
    commands := commands + [CheckoutArgs(plan)];
    var checkout := git(CheckoutArgs(plan));
    if checkout.CannotLaunch? {
      ends := Panicked("Failed to checkout PR branch");
      return;
    }
    if checkout.success {
      report := ReadOnly(plan.localBranch, prNumber);
    } else {
      report := CheckoutFailed;
    }
  }

  // ---- show_diff ----

  /** The branch `show_diff` assumes the PR was checked out into. */
  function DiffBranch(prNumber: string): string {
    "pr-request-" + prNumber
  }

  /** How `show_diff` ends: the command it runs, whether it printed the failure
      message, and how the command ended. */
  datatype DiffRun = DiffRun(command: seq<string>, failed: bool, ends: Termination)

  /** `show_diff`: one `git diff origin/main...pr-request-<n>`, a panic if git cannot be
      started, and a message (no exit) if it fails. */
  function ShowDiff(git: seq<string> -> Launch, prNumber: string): (run: DiffRun)
    ensures run.command == ["diff", "origin/main..." + DiffBranch(prNumber)]
    ensures run.failed <==> git(run.command) == Finished(false)
    ensures run.ends != Returned <==> git(run.command).CannotLaunch?
  {
    var command := ["diff", "origin/main..." + DiffBranch(prNumber)];
    match git(command)
    case CannotLaunch(_) => DiffRun(command, false, Panicked("Failed to show diff"))
    case Finished(success) => DiffRun(command, !success, Returned)
  }

  /** `show_diff` never diffs the branch a pull of a fork PR creates. */
  lemma DiffNeverNamesForkBranch(prNumber: string, headRef: string, headRepo: string, headOwner: string, baseRepo: string)
    requires headRepo != baseRepo
    ensures DiffBranch(prNumber) != PlanBranch(prNumber, headRef, headRepo, headOwner, baseRepo).localBranch
  {
    var fork := headOwner + "-pr-" + prNumber;
    if |headOwner| == 7 {
      assert DiffBranch(prNumber)[7] == 'e' && fork[7] == '-';
    } else {
      assert |DiffBranch(prNumber)| != |fork|;
    }
  }

  /** For a same-repository PR it diffs the pulled branch only when the head ref
      happens to be `pr-request-<n>`. */
  lemma DiffNamesSameRepoBranchOnlyByName(prNumber: string, headRef: string, repo: string, headOwner: string)
    ensures DiffBranch(prNumber) == PlanBranch(prNumber, headRef, repo, headOwner, repo).localBranch
        <==> headRef == "pr-request-" + prNumber
  {
  }
}
