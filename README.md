# git-pr, modelled in Dafny

`git-pr` is a command-line tool that works with the pull requests of the GitHub
repository behind the current directory's `origin` remote. It can list the open
pull requests, show one pull request's commits, fetch a pull request into a
local branch, show the diff of that branch, and submit a review. A `--reject`
review also closes the pull request.

This project models:

- the command's dispatch (`main.rs`);
- the choice of provider (`providers/mod.rs`);
- the debug switch (`utils.rs`);
- every operation of the GitHub provider (`providers/github/github.rs`).

The model follows the structure of the program:

| module | file | what it holds |
|---|---|---|
| `Outcomes`, `Text`, `Json`, `Models`, `Http` | `outcomes.dfy`, `text.dfy`, `json.dfy`, `models.dfy`, `http.dfy` | Building blocks. `Result`/`Option`, the Rust string operations the source uses (`contains`, `trim_end_matches`, `split`, `join`, decimal formatting), `serde_json::Value` indexing, the records of `models.rs`, and the HTTP exchange. |
| `GitHub` | `github.dfy` | The constructor, `infer_repo_details`, the API URLs, `submit_review`, `close_pull_request`. |
| `GitHubPull` | `pull.dfy` | `pull_pr`, as a method that actually runs the git commands in order, and `show_diff`. |
| `AgeSort` | `agesort.dfy` | `sort_by_key` on the age: a stable insertion sort. It is specified as a function and also done in place on an array. |
| `GitHubList` | `listing.dfy` | `list_pull_requests`: the per-PR fetch loop as a method, proved against a specification function, plus the table cells. |
| `GitHubDetails` | `details.dfy` | `show_pull_request_details`: the header, the per-commit loop as a method, and the rows. |
| `Providers`, `Utils`, `Cli` | `providers.dfy`, `utils.dfy`, `cli.dfy` | `get_provider`, `is_debug_enabled`, and `main`. |

### The outside world

- **HTTP.** The GitHub API is a `Host` value. For each URL it gives the reply to a GET, POST or PATCH, already split by what the body decodes to. A reply is one of:
  - `Unreachable`: the request or the reading of its body failed;
  - `Answered(status, text, body)`, where the body itself is either parsed or malformed.
- **Request log.** Every operation returns the requests it sends, in order, so the contracts can talk about what is sent and how often.
- **git.** git is a function from an argument list to a `Launch`: either the process could not be started, or it finished with success or failure.
- **Clocks.** The clock is a parameter: `list` reads it once per pull request, `show-details` reads it once.
- **Dates.** The RFC 3339 date parser is a parameter. The model requires only that it refuses strings shorter than the shortest RFC 3339 date-time (20 characters).
- **Token and remote URL.** The `GITHUB_TOKEN` variable and the `origin` URL are arguments.
- **Exit status.** A panic from `.expect(...)` is a `Termination.Panicked` and exits the process with 101. `std::process::exit(c)` is `Exited(c)`. clap's refusal of conflicting flags exits with 2 at the start of `main`, in `Cli::parse()`.

### Design notes the proofs bring out

- **List order.** The list is sorted by age in ASCENDING order, with ties kept in fetch order. So the youngest pull request comes first. The comment beside the sort says "oldest first", but the code sorts youngest first, and the model follows the code (`AgeSort.SortByAgeSorted`, `GitHubList.ListingRowsAscending`). `AgeSort.EveryStableSortAgrees` shows that this order is the only stable one.
- **Diff branch.** `show_diff` diffs against the branch `pr-request-N`. That is never the branch `pull_pr` creates for a fork pull request (`{owner}-pr-N`). For a same-repository pull request it is the right branch only when the head branch is literally named `pr-request-N` (`GitHubPull.DiffNeverNamesForkBranch`, `GitHubPull.DiffNamesSameRepoBranchOnlyByName`).
- **Missing fields in `pull_pr`.** When the record lacks `head.ref`, `head.repo` and `base.repo`, `pull_pr` still proceeds. It fetches the refspec `":"` and checks out an empty branch name, because every missing field defaults to `""` (`GitHubPull.PlanForEmptyRecord`).
- **Accepted but unparseable remote.** `get_provider` accepts any remote URL that contains `github.com`. Such a URL can still leave the owner and repository unparseable, for example `github.com` itself (`Providers.AcceptedRemoteMayNotParse`).

## Model

| member | source | states |
|---|---|---|
| `GitHub.New` | src/providers/github/github.rs:19-27 | Construction succeeds exactly when `GITHUB_TOKEN` is set. It then keeps the remote URL and the token; otherwise the error is "token unset". |
| `GitHub.InferRepoDetails` | src/providers/github/github.rs:31-53 | After every trailing `.git` is trimmed, the URL yields `Some` exactly when it contains `github.com` and its path part holds a `/`. The path part is the whole URL for `http…`, and otherwise what follows the last `:`. Owner and repo contain no `/`, and `owner/repo` is the path part's last two pieces. |
| `GitHub.JoinLastTwo` | src/providers/github/github.rs:44-49 | A join of two or more parts ends with its last two parts around the separator, preceded by that separator unless there are no other parts. |
| `GitHub.ProviderHostSurvivesTrim` | src/providers/github/github.rs:33-35 | A URL containing `github.com` still contains it after `.git` is trimmed from its end. |
| `GitHub.InferIgnoresGitSuffix` | src/providers/github/github.rs:33 | Appending `.git` to a remote URL does not change the owner and repository inferred from it. |
| `GitHub.NoGitSuffix` | src/providers/github/github.rs:33 | A string ending in `/` and a piece without the `.git` ending does not end in `.git`; used to show that the trim leaves such URLs alone. |
| `GitHub.InferHttps` | src/providers/github/github.rs:31-53 | `https://github.com/O/R`, with or without `.git`, infers `(O, R)` for every owner and repo free of `/` whose repo does not end in `.git`. |
| `GitHub.InferSsh` | src/providers/github/github.rs:31-53 | `git@github.com:O/R`, with or without `.git`, infers `(O, R)` for every owner and repo free of `/` and `:`. |
| `GitHub.InferSshExample` | src/providers/github/github.rs:235-236 | The documented SSH remote `git@github.com:foo/bar.git` infers `(foo, bar)`. |
| `GitHub.InferHttpsExample` | src/providers/github/github.rs:31-53 | The HTTPS remote `https://github.com/foo/bar.git` infers `(foo, bar)`. |
| `GitHub.InferDocumentedHttps` | src/providers/mod.rs:49 | The documented HTTPS remote `https://github.com/user/repo.git` infers `(user, repo)`. |
| `GitHub.InferRejectsMissingSegment` | src/providers/github/github.rs:44-52 | `git@github.com:repo` contains `github.com` but infers nothing: its path part has only one piece. |
| `GitHub.InferRejectsBareHost` | src/providers/github/github.rs:44-52 | `github.com` contains `github.com` but infers nothing. |
| `GitHub.InferNeedsSlash` | src/providers/github/github.rs:35-52 | A remote without any `/` infers nothing, whatever its host. |
| `GitHub.HttpsPieces` | src/providers/github/github.rs:36-39 | `https://github.com/O/R` splits on `/` into `https:`, an empty piece, `github.com`, `O` and `R`. |
| `GitHub.HttpsHost` | src/providers/github/github.rs:35-41 | `https://github.com/O/R` starts with `http` and contains `github.com`, so its path part is the whole URL. |
| `GitHub.SshHost` | src/providers/github/github.rs:35-41 | `git@github.com:P` does not start with `http` and contains `github.com`, so its path part follows the last `:`. |
| `GitHub.SshPieces` | src/providers/github/github.rs:36-44 | The part of `git@github.com:O/R` after the last `:` is `O/R`, which splits into `O` and `R`. |
| `GitHub.SubmitReview` | src/providers/github/github.rs:66-142 | At most two requests are sent, none exactly when the owner and repository cannot be inferred. A successful review has sent exactly the GET of the PR and then a POST. |
| `GitHub.SubmitReviewPostsPinnedReview` | src/providers/github/github.rs:66-142 | A review is posted exactly when the PR read yields a string `head.sha`. The requests are then exactly that GET and one POST to the reviews URL, carrying the message, the event and that SHA. Otherwise the result is an error after at most one request. |
| `GitHub.SubmitReviewOkIffPosted2xx` | src/providers/github/github.rs:123-141 | Once the SHA is known, the review is `Ok` exactly when the POST is answered with a 2xx status. A non-2xx answer is the error "Failed to submit review: " followed by the response text. |
| `GitHub.ReviewPayloadFields` | src/providers/github/github.rs:113-117 | The payload is an object with exactly the keys `body`, `event` and `commit_id`, holding the message, the event and the SHA verbatim. |
| `GitHub.SubmitReviewIgnoresReadStatus` | src/providers/github/github.rs:88-102 | Changing the status of the PR read changes nothing in the review: only its body is used. |
| `GitHub.ClosePullRequest` | src/providers/github/github.rs:558-622 | Without repository details nothing is sent and the error is "Could not parse owner/repo". Otherwise exactly one PATCH `{"state": "closed"}` goes to the PR URL. The result is `Ok` exactly on a 2xx answer, and a non-2xx answer is "Failed to close PR: " followed by the text. |
| `Utils.IsDebugEnabled` | src/utils.rs:27-39 | Debug output is on only for a set `DEBUG` of one or four characters; `Utils.DebugEnabledExactly` names the three values. |
| `Utils.DebugEnabledExactly` | src/utils.rs:27-39 | Debug output is on if and only if `DEBUG` is one of `1`, `true`, `TRUE`. |
| `Utils.DebugCaseSensitive` | src/utils.rs:36-38 | `True` and `tRue` leave debug output off. |
| `Utils.DebugOffOtherwise` | src/utils.rs:27-39 | Any other value, `0`, and an unset variable leave debug output off. |
| `Providers.GetProvider` | src/providers/mod.rs:53-67 | A URL without `github.com` is refused with "Unsupported provider". With it, the result is a provider exactly when the token is set, and that provider holds the URL and the token. |
| `Providers.UnsupportedIgnoresToken` | src/providers/mod.rs:58-66 | The refusal of a non-GitHub remote is the same whatever the token. |
| `Providers.GitHubRemoteIsConstructed` | src/providers/mod.rs:58-63 | For a GitHub remote the result is exactly that of `GitHubProvider::new`. |
| `Providers.AcceptedRemotePassesHostTest` | src/providers/mod.rs:58 | Every accepted remote still contains `github.com` after `.git` is trimmed, so `infer_repo_details` passes its host test. |
| `Providers.AcceptedRemoteMayNotParse` | src/providers/mod.rs:58 | The remote `github.com` is accepted, given a token, yet names no owner and repository. |
| `GitHubPull.PlanBranch` | src/providers/github/github.rs:286-387 | The plan is a fork plan exactly when the head and base full names differ, and it tracks an upstream exactly when it is not a fork. |
| `GitHubPull.PlanFromPr` | src/providers/github/github.rs:271-286 | A record's plan is a fork plan exactly when its head and base full names differ. A fork checks out `<head owner>-pr-<n>`; otherwise the head ref itself. An upstream is tracked exactly when it is not a fork. |
| `GitHubPull.PlanBranchShape` | src/providers/github/github.rs:286-387 | The PR is a fork exactly when the head and base full names differ. The same repository keeps the head branch, fetches `ref:ref` and tracks `origin/ref`. A fork gets `{owner}-pr-N`, fetches `pull/N/head:{branch}` and tracks nothing. |
| `GitHubPull.FetchWritesCheckedOutBranch` | src/providers/github/github.rs:310-387 | In both shapes the refspec ends with `:` and the branch that is then checked out. |
| `GitHubPull.ForkBranchesDistinct` | src/providers/github/github.rs:354 | Two different PR numbers of the same fork owner get different local branches. |
| `GitHubPull.PlanIsCaseSensitive` | src/providers/github/github.rs:286 | Full names differing only in case count as a fork. |
| `GitHubPull.PlanForEmptyRecord` | src/providers/github/github.rs:272-313 | A record with none of the fields is same-repository, with branch `""`, refspec `":"` and upstream `origin/`. |
| `GitHubPull.Prepare` | src/providers/github/github.rs:236-307 | The lookups before git runs end the command without a normal return whenever they stop it: exit 1, or a panic. |
| `GitHubPull.ReadyNeedsPrRecord` | src/providers/github/github.rs:236-307 | The git steps are reached only with repository details and a 2xx, parsed PR answer. The plan is then the one read from that record, after exactly the PR and `/user` requests. |
| `GitHubPull.PrepareIgnoresUserStatus` | src/providers/github/github.rs:298-306 | The status of the `/user` answer changes nothing. |
| `GitHubPull.PullPr` | src/providers/github/github.rs:217-388 | A stopped lookup runs no git command. A same-repository pull runs fetch, checkout and set-upstream, ignoring their statuses, and reports tracking. A fork pull has two policies. The fetch panics if it cannot start and exits 1 if it fails. Only a successful fetch is followed by the checkout, which panics if it cannot start, reports read-only on success, and reports failure without exiting. |
| `GitHubPull.RunPlan` | src/providers/github/github.rs:309-387 | A same-repository plan runs fetch, checkout and set-upstream, whatever their statuses, and reports the tracking branch. A fork plan runs the fetch, then the checkout only when the fetch launched and succeeded. A fetch that cannot launch panics; a failed fetch exits 1. A checkout that cannot launch panics; otherwise the report says whether it succeeded. |
| `GitHubPull.ShowDiff` | src/providers/github/github.rs:150-178 | Exactly `git diff origin/main...pr-request-N` is run. The failure message is printed exactly when git fails, and the run ends other than normally exactly when git cannot be started. |
| `GitHubPull.DiffNeverNamesForkBranch` | src/providers/github/github.rs:153-157 | The diffed branch is never the branch a fork pull creates. |
| `GitHubPull.DiffNamesSameRepoBranchOnlyByName` | src/providers/github/github.rs:153-157 | For a same-repository PR, the diffed branch is the pulled one exactly when the head branch is named `pr-request-N`. |
| `AgeSort.Insert` | src/providers/github/github.rs:483 | Insertion makes the sequence one longer; `InsertPermutes`, `InsertKeepsSorted` and `InsertWithAge` state what it keeps. |
| `AgeSort.SortByAge` | src/providers/github/github.rs:483 | The sort keeps the length; `SortByAgePermutes`, `SortByAgeSorted` and `SortByAgeStable` state the rest. |
| `AgeSort.InsertPermutes` | src/providers/github/github.rs:483 | Insertion adds exactly the one element, as a multiset. |
| `AgeSort.SortByAgePermutes` | src/providers/github/github.rs:483 | The sort is a permutation of its input. |
| `AgeSort.InsertKeepsSorted` | src/providers/github/github.rs:483 | Insertion into an ascending sequence keeps it ascending. |
| `AgeSort.SortByAgeSorted` | src/providers/github/github.rs:482-483 | The output is in ascending age: youngest first. |
| `AgeSort.WithAgeAppend` | src/providers/github/github.rs:483 | Taking the pull requests of one age distributes over concatenation. |
| `AgeSort.InsertWithAge` | src/providers/github/github.rs:483 | Inserting into a sorted sequence puts the new element last in its age group, as appending would. |
| `AgeSort.SortByAgeStable` | src/providers/github/github.rs:483 | The sort is stable: for every age, the pull requests of that age keep their input order. |
| `AgeSort.WithAgeCounts` | src/providers/github/github.rs:483 | An element occurs in its age group as often as in the whole sequence. |
| `AgeSort.SameGroupsSameElements` | src/providers/github/github.rs:483 | Sequences with the same age groups are permutations of each other. |
| `AgeSort.SameLastAge` | src/providers/github/github.rs:483 | Two ascending permutations of each other have the same length and end with the same age. |
| `AgeSort.DropLastKeepsGroups` | src/providers/github/github.rs:483 | When the last elements have the same age, equal groups make those last elements equal, and dropping them keeps the groups equal. |
| `AgeSort.SortedWithSameGroupsEqual` | src/providers/github/github.rs:483 | Two ascending sequences with the same age groups are equal. |
| `AgeSort.EveryStableSortAgrees` | src/providers/github/github.rs:483 | Any ascending rearrangement that keeps every age group's order is exactly the model's sort, so a stable sort by age has only one possible output. |
| `AgeSort.SortExample` | src/providers/github/github.rs:482-483 | Pull requests 10, 0 and 3 days old come out 0, 3, 10. |
| `AgeSort.InsertAt` | src/providers/github/github.rs:483 | Inserting where the backward scan stops (after the last element no older, before the older ones) is the functional insert. |
| `AgeSort.SortByAgeSnoc` | src/providers/github/github.rs:483 | The stable sort of a prefix one longer is the sort of the shorter prefix with the next element inserted. |
| `AgeSort.InsertInPlace` | src/providers/github/github.rs:483 | Shifting the older elements of the sorted prefix up by one and dropping the next element into the gap leaves the functional insert in the prefix, and the rest of the array untouched. |
| `AgeSort.SortByAgeInPlace` | src/providers/github/github.rs:483 | After the in-place insertion sort, the array holds exactly the stable sort of its old contents. |
| `GitHubList.AgeDays` | src/providers/github/github.rs:476 | The age has the sign of the elapsed time: never negative for a PR created before now, never positive for one created after. |
| `GitHubList.AgeDaysBounds` | src/providers/github/github.rs:476 | The age is elapsed seconds over 86400, truncated toward zero, for both signs. |
| `GitHubList.AgeDaysZero` | src/providers/github/github.rs:476 | The age is 0 exactly when less than a day lies between now and the creation time, in either direction. |
| `GitHubList.AgeText` | src/providers/github/github.rs:492-496 | The age cell is `today` or ends in `d` after at least one character. |
| `GitHubList.AgeTextRoundTrip` | src/providers/github/github.rs:492-496 | The age cell reads back as the age, and it is `today` exactly for age 0. |
| `GitHubList.LabelNames` | src/providers/github/github.rs:501-503 | The label names, one per label, in API order. |
| `GitHubList.LabelsText` | src/providers/github/github.rs:498-506 | A single label's cell is exactly its name, with no separator. |
| `GitHubList.LabelsTextMentionsEach` | src/providers/github/github.rs:498-506 | Every label's name occurs in the labels cell. |
| `GitHubList.LabelsTextDash` | src/providers/github/github.rs:498-506 | The labels cell is `-` exactly when there are no labels, or one label named `-`. |
| `GitHubList.NumberTextRoundTrip` | src/providers/github/github.rs:513 | The number cell is `#` followed by digits that read back as the number. |
| `GitHubList.Display` | src/providers/github/github.rs:490-521 | A row's age, number, commit count and file count read back as the pull request's. A missing body is wrapped as `-`. |
| `GitHubList.DisplayAll` | src/providers/github/github.rs:488-523 | One row per pair, in order. |
| `GitHubList.Classify` | src/providers/github/github.rs:457-479 | A summary is skipped exactly when its detail answer is not 2xx, with a warning carrying its number and the answer text. It is kept exactly when the answer is 2xx and decodes, with that PR and its age by the clock. Everything else is fatal. |
| `GitHubList.Gather` | src/providers/github/github.rs:448-480 | The loop over the summaries sends at most one request per summary, and every kept PR and every warning has its own request. |
| `GitHubList.GatherRequests` | src/providers/github/github.rs:448-462 | The i-th request sent is the detail GET of the i-th summary. |
| `GitHubList.GatherRequestCount` | src/providers/github/github.rs:448-462 | A loop that has not failed has sent exactly one request per summary. |
| `GitHubList.GatherFailsIffFatal` | src/providers/github/github.rs:448-480 | The loop ends without error exactly when no summary's fetch is fatal. |
| `GitHubList.GatherKeptWhenComplete` | src/providers/github/github.rs:464-480 | A loop that has not failed keeps exactly the 2xx, decodable pull requests in order and warns exactly for the non-2xx ones. |
| `GitHubList.GatherCompletes` | src/providers/github/github.rs:448-480 | The loop ends without error exactly when no summary's fetch is fatal. It then sends one request per summary, keeps exactly the 2xx, decodable ones in order, and warns exactly for the non-2xx ones. |
| `GitHubList.GatherStopsOnFirstFatal` | src/providers/github/github.rs:462-475 | A loop that failed did so on its last request. That request is the first summary whose fetch is fatal, and the failure is its error. |
| `GitHubList.GatherStops` | src/providers/github/github.rs:462-475 | Once the loop has failed, further summaries change nothing. |
| `GitHubList.GatherAbortsOnFatal` | src/providers/github/github.rs:457-475 | When summary f is the first fatal one, the loop fails with its error after exactly f + 1 requests, the last being f's detail GET. |
| `GitHubList.FetchDetails` | src/providers/github/github.rs:448-480 | The imperative `for` loop over the summaries yields exactly the specification's loop result. |
| `GitHubList.ListPullRequests` | src/providers/github/github.rs:396-531 | The imperative listing (loop, push, in-place sort, map) yields exactly the outcome, requests and warnings of the specification of the command. |
| `GitHubList.ListingOf` | src/providers/github/github.rs:396-531 | No request is sent exactly when the owner and repository cannot be inferred. A table has fewer rows plus warnings than requests sent, since the list request comes first. |
| `GitHubList.ListingRowsAscending` | src/providers/github/github.rs:482-523 | Every table row's age reads back, and the ages ascend. |
| `GitHubList.ListingTableOfSurvivors` | src/providers/github/github.rs:448-523 | With no fatal fetch, the table is the rows of the stable age sort of exactly the surviving pull requests, a permutation of them. There is one warning per non-2xx summary and one request per summary plus the list request. |
| `GitHubList.ListingAbortsOnFatal` | src/providers/github/github.rs:457-475 | The first summary whose fetch is fatal ends the command with that error. It is the last request sent, and no later summary is fetched. |
| `GitHubList.ListingEmpty` | src/providers/github/github.rs:437-440 | An empty list reports no open pull requests after the single list request. |
| `GitHubList.ListingRejectedList` | src/providers/github/github.rs:420-430 | A non-2xx list answer is "Failed to list PRs: " followed by its text, after the one request. |
| `GitHubDetails.ParseRfc3339` | src/providers/github/github.rs:690 | A string shorter than 20 characters is not an RFC 3339 date-time. |
| `GitHubDetails.HeaderOf` | src/providers/github/github.rs:684-702 | The header fails exactly when `created_at` does not parse, with that text as the bad timestamp. Otherwise its age cell reads back as the age in days. |
| `GitHubDetails.MissingCreatedAtFails` | src/providers/github/github.rs:687-690 | A PR record without a string `created_at` fails with the bad timestamp `-`. |
| `GitHubDetails.ShortSha` | src/providers/github/github.rs:743 | The short SHA is the SHA's prefix of length `min(7, len)`. |
| `GitHubDetails.ShortShaMissing` | src/providers/github/github.rs:742-743 | A commit without a string `sha` shows `-` as its short SHA. |
| `GitHubDetails.FileNames` | src/providers/github/github.rs:774-779 | There are never more names than entries. |
| `GitHubDetails.FileNamesExactly` | src/providers/github/github.rs:774-779 | A name is listed exactly when some entry has it as a string `filename`. |
| `GitHubDetails.FileNamesAppend` | src/providers/github/github.rs:777-779 | The names of two runs of entries are the names of the first followed by those of the second, so API order and repeated names are kept. |
| `GitHubDetails.FileNamesOne` | src/providers/github/github.rs:778 | One entry contributes its `filename` string, or nothing when it has none. |
| `GitHubDetails.ChangedFiles` | src/providers/github/github.rs:774-780 | A commit whose `files` is missing or not an array has an empty cell. |
| `GitHubDetails.ChangedFilesAppendEntry` | src/providers/github/github.rs:774-780 | One more entry at the end of `files` appends its name at the end of the cell, after `, ` unless it is the first name. An entry without a string `filename` changes nothing. |
| `GitHubDetails.ChangedFilesMentionsEach` | src/providers/github/github.rs:774-780 | Every file name of a commit occurs in its files cell. |
| `GitHubDetails.ChangedFilesMissing` | src/providers/github/github.rs:774-780 | A commit without `files` has an empty files cell. |
| `GitHubDetails.RowOf` | src/providers/github/github.rs:785-809 | A row shows PR-level cells exactly when it is commit 0's. That row shows `#<n>` and the header's title, status, age and author. Every row shows the short SHA and the files cell of its commit. |
| `GitHubDetails.Classify` | src/providers/github/github.rs:740-809 | A commit is skipped exactly when its answer is not 2xx, with a warning carrying its SHA and the answer text. It gets a row exactly when the answer is 2xx and decodes; that row shows PR-level cells exactly for commit 0, and the commit's short SHA. Everything else is fatal. |
| `GitHubDetails.Gather` | src/providers/github/github.rs:740-813 | The commit loop sends at most one request per commit, and every row and every warning has its own request. |
| `GitHubDetails.GatherFailsIffFatal` | src/providers/github/github.rs:740-813 | The loop ends without error exactly when no commit's fetch is fatal. |
| `GitHubDetails.GatherRowsWhenComplete` | src/providers/github/github.rs:740-813 | A loop that has not failed has sent one request per commit and shows exactly the rows of the commits answering 2xx, in order. |
| `GitHubDetails.GatherCompletes` | src/providers/github/github.rs:740-813 | The loop ends without error exactly when no commit's fetch is fatal. It then sends one request per commit and shows exactly the rows of the commits answering 2xx, in order. |
| `GitHubDetails.GatherStops` | src/providers/github/github.rs:760-773 | Once the loop has failed, further commits change nothing. |
| `GitHubDetails.ShownHeaderOnlyFirst` | src/providers/github/github.rs:785-809 | No row after the first shows any PR-level cell (number, title, status, age, author). If commit 0 was skipped, no row shows one. If it was shown, the first row shows `#<n>` and exactly the header's title, status, age and author. |
| `GitHubDetails.CollectRows` | src/providers/github/github.rs:740-813 | The enumerate loop yields exactly the specification's loop result. |
| `GitHubDetails.ShowPullRequestDetails` | src/providers/github/github.rs:639-826 | The imperative command yields exactly the outcome, requests and warnings of its specification. |
| `GitHubDetails.DetailsOf` | src/providers/github/github.rs:639-826 | No request is sent exactly when the owner and repository cannot be inferred. A successful result has no more rows plus warnings than commit requests, after the PR and commits requests. |
| `GitHubDetails.DetailsPrRejected` | src/providers/github/github.rs:661-672 | A non-2xx PR answer is "Failed to fetch PR details: " followed by its text, and nothing else is requested. |
| `GitHubDetails.DetailsNeedCreatedAt` | src/providers/github/github.rs:687-690 | A PR without `created_at` fails with the bad timestamp `-` before the commits are requested. |
| `GitHubDetails.DetailsCommitsRejected` | src/providers/github/github.rs:721-731 | A non-2xx commit-list answer is "Failed to fetch commits: " followed by its text, after two requests. |
| `GitHubDetails.DetailsRowsPerCommit` | src/providers/github/github.rs:734-825 | With no fatal commit the result is the shown rows in commit order, after two requests plus one per commit. No row after the first shows a PR-level cell, and none does when commit 0 was skipped. When commit 0 was shown, the first row shows `#<n>` and exactly the header's title, status, age and author. |
| `Cli.Main` | src/main.rs:68-194 | A run makes at most two provider calls. A run that makes none exits 1 or 2. |
| `Cli.Dispatch` | src/main.rs:97-194 | Each command makes one provider call; only `submit-review` can make two. |
| `Cli.Review` | src/main.rs:141-193 | The first call is the review of the PR with the given message, or "Looks good to me.". For flags clap accepts, its event is the flag's. A second call is made only for `--reject` and is the close of the PR. |
| `Cli.StartupGates` | src/main.rs:68-92 | No provider call is made exactly when clap refuses the flags, the remote URL is missing, or the provider is refused. The exit is then 2 for the flags and 1 for the others. |
| `Cli.UnsupportedRemoteExits` | src/main.rs:86-92 | A non-GitHub remote exits 1 with no provider call, whatever the token. |
| `Cli.FlagsExclusive` | src/main.rs:44-63 | Any two review flags together are a usage error (exit 2) with no call. |
| `Cli.ReviewRouting` | src/main.rs:141-193 | A review that passes the gates makes exactly one review call, first. It carries the flag's event and the message, or "Looks good to me." without one. |
| `Cli.EventsByFlag` | src/main.rs:148-192 | `--approve` and no flag approve, `--comment-only` comments, `--reject` requests changes, and the three events differ. |
| `Cli.CloseOnlyAfterRejectReview` | src/main.rs:157-173 | The PR is closed exactly for `--reject` after a successful review. The calls are then exactly that review and the close. |
| `Cli.ReviewExitStatus` | src/main.rs:141-193 | A review exits 0 or 1. It is 0 exactly when the review succeeded, and also the close for `--reject`. A failed review is the only call and exits 1. |
| `Cli.RejectPartialFailure` | src/main.rs:157-173 | A reject whose review succeeds and whose close fails has made both calls and exits 1. |
| `Cli.ResultCommandsExit` | src/main.rs:99-111 | `list` and `show-details` make their one call and exit 1 exactly on its error. |
| `Cli.UninspectedCommandsExit` | src/main.rs:114-127 | `pull` and `show-diff` make their one call and exit as their own ending leaves: 0 on a normal return. |
| `Text.TrimEndMatches` | src/providers/github/github.rs:33 | `trim_end_matches` leaves a prefix of the string that no longer ends with the pattern. |
| `Text.SplitHasTwoPieces` | src/providers/github/github.rs:44 | `split` yields two or more pieces exactly when the separator occurs. |
| `Text.JoinSplit` | src/providers/github/github.rs:36-39 | Joining the pieces of a split with the separator gives back the string. |
| `Text.SplitJoin` | src/providers/github/github.rs:36-39 | Splitting a join of separator-free pieces gives back the pieces. |
| `Text.JoinSnoc` | src/providers/github/github.rs:780 | Appending a part to a non-empty join adds the separator and then the part. |
| `Text.SplitPiecesWithout` | src/providers/github/github.rs:36-39 | No piece of a split contains a character the string lacks. |
| `Text.IntToStringRoundTrip` | src/providers/github/github.rs:495 | Decimal rendering of an integer reads back as that integer. |

## Left out

- **Terminal output.** Printing, colours, the table layout (`tabled`) and the debug messages are not modelled. The rows are modelled as the cells' strings.
- **Line wrapping.** textwrap's `fill`, which wraps the PR body, is a parameter `wrap`.
- **`reqwest`, `serde_json` and chrono.** They are not part of this model. The network is the `Host` oracle. JSON decoding is given with each answer, as parsed or malformed. RFC 3339 parsing is a parameter, constrained only to refuse strings shorter than 20 characters. A failure to read a body (`text()?`) is folded into `Unreachable`.
- **Time.** Timestamps are whole seconds. Sub-second precision and time zones are inside the parser parameter.
- **Process environment.** The variables `GITHUB_TOKEN` and `DEBUG` are arguments, not reads of the process environment. So is the `git remote get-url origin` call in `main`.
- **`pull_pr`'s own re-derivation.** `pull_pr` reads the remote again and builds a second provider from it; the model uses the provider it was called on.
- **The `/user` request in `pull_pr`.** It is modelled only for its `.expect` panics. The login it yields is never used by the source.
- **Short SHA.** `&sha[..7]` slices bytes. The model slices characters, which is the same for the hexadecimal SHAs GitHub returns.
- **`Cli.Main`.** It is over the provider's outcomes, given as parameters, not over the concrete GitHub functions. Its lemmas therefore hold for any provider.
- **Trait plumbing.** factory.rs, provider.rs, methods.rs and github/mod.rs hold only trait declarations and re-exports, with no behaviour to model.
