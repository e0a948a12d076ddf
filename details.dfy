/**
  `show_pull_request_details` of `github.rs`: the PR record, its age, the commit list,
  and one table row per commit whose own record can be fetched. The clock reading and
  the RFC 3339 parser are parameters.
 */
module GitHubDetails {
  import opened Outcomes
  import opened Text
  import opened Json
  import opened Models
  import opened Http
  import GitHub
  import GitHubList

  // ---- the PR record ----

  /** `DateTime::parse_from_rfc3339`, as seconds since the epoch. The parser itself is
      a parameter; a string shorter than the shortest RFC 3339 date-time
      ("2024-01-01T00:00:00Z", 20 characters) never parses. */
  function ParseRfc3339(rfc3339: string -> Option<int>, s: string): (t: Option<int>)
    ensures |s| < 20 ==> t.None?
  {
    if |s| < 20 then None else rfc3339(s)
  }

  /** The PR-level fields of the first row. */
  datatype Header = Header(title: string, status: string, user: string, age: string)

  function Title(pr: Json.Value): string { StrOr(Field(pr, "title"), "-") }
  function State(pr: Json.Value): string { StrOr(Field(pr, "state"), "-") }
  function Author(pr: Json.Value): string { StrOr(Field(Field(pr, "user"), "login"), "-") }
  function CreatedAt(pr: Json.Value): string { StrOr(Field(pr, "created_at"), "-") }

  /** The header of a PR record, or the error for a `created_at` that is not a date-time. */
  function HeaderOf(pr: Json.Value, now: int, rfc3339: string -> Option<int>): (h: Result<Header>)
    ensures h.Err? <==> ParseRfc3339(rfc3339, CreatedAt(pr)).None?
    ensures h.Err? ==> h.error == BadTimestamp(CreatedAt(pr))
    ensures h.Ok? ==>
      GitHubList.AgeFromText(h.value.age)
        == Some(GitHubList.AgeDays(now, ParseRfc3339(rfc3339, CreatedAt(pr)).value))
  {
    match ParseRfc3339(rfc3339, CreatedAt(pr))
    case None => Err(BadTimestamp(CreatedAt(pr)))
    case Some(created) =>
      GitHubList.AgeTextRoundTrip(GitHubList.AgeDays(now, created));
      Ok(Header(Title(pr), State(pr), Author(pr), GitHubList.AgeText(GitHubList.AgeDays(now, created))))
  }

  /** A record without `created_at` cannot be shown. */
  lemma MissingCreatedAtFails(pr: Json.Value, now: int, rfc3339: string -> Option<int>)
    requires AsStr(Field(pr, "created_at")).None?
    ensures HeaderOf(pr, now, rfc3339) == Err(BadTimestamp("-"))
  {
  }

  // ---- one row ----

  /** `&sha[..7.min(sha.len())]` */
  function ShortSha(sha: string): (s: string)
    ensures |s| == if |sha| < 7 then |sha| else 7
    ensures StartsWith(sha, s)
  {
    sha[..if |sha| < 7 then |sha| else 7]
  }

  /** The `filename` strings of a `files` array, in order; other entries are skipped. */
  function FileNames(files: seq<Json.Value>): (names: seq<string>)
    ensures |names| <= |files|
    decreases |files|
  {
    if |files| == 0 then []
    else
      var rest := FileNames(files[1..]);
      match AsStr(Field(files[0], "filename"))
      case Some(n) => [n] + rest
      case None => rest
  }

  /** A name is listed exactly when some entry has it as its `filename` string. */
  lemma {:induction false} FileNamesExactly(files: seq<Json.Value>)
    ensures var names := FileNames(files);
      && (forall i :: 0 <= i < |files| && AsStr(Field(files[i], "filename")).Some? ==>
            AsStr(Field(files[i], "filename")).value in names)
      && (forall n :: n in names ==> exists i :: 0 <= i < |files| && AsStr(Field(files[i], "filename")) == Some(n))
    decreases |files|
  {
    if |files| > 0 {
      FileNamesExactly(files[1..]);
      assert forall i :: 1 <= i < |files| ==> files[i] == files[1..][i - 1];
    }
  }

  /** The names of two runs of entries, one after the other: the order and the
      repetitions of the array are kept. */
  lemma {:induction false} FileNamesAppend(a: seq<Json.Value>, b: seq<Json.Value>)
    ensures FileNames(a + b) == FileNames(a) + FileNames(b)
    decreases |a|
  {
    if |a| == 0 {
      assert a + b == b;
    } else {
      FileNamesAppend(a[1..], b);
      var ab := a + b;
      assert ab[0] == a[0];
      assert ab[1..] == a[1..] + b;
      var rest, restAb := FileNames(a[1..]), FileNames(ab[1..]);
      assert restAb == rest + FileNames(b);
      match AsStr(Field(a[0], "filename"))
      case Some(n) =>
        assert FileNames(a) == [n] + rest;
        assert FileNames(ab) == [n] + restAb;
      case None =>
        assert FileNames(a) == rest;
        assert FileNames(ab) == restAb;
    }
  }

  /** One entry contributes its `filename` string, or nothing. */
  lemma FileNamesOne(f: Json.Value)
    ensures FileNames([f]) == (match AsStr(Field(f, "filename")) case Some(n) => [n] case None => [])
  {
    assert [f][1..] == [];
  }

  /** The changed-files cell of a commit record: the file names joined by ", ", and ""
      when `files` is missing or not an array. */
  function ChangedFiles(commit: Json.Value): (cell: string)
    ensures AsArray(Field(commit, "files")).None? ==> cell == ""
  {
    match AsArray(Field(commit, "files"))
    case Some(files) => Join(FileNames(files), ", ")
    case None => ""
  }

  /** Every file name of the commit appears in its cell. */
  lemma ChangedFilesMentionsEach(commit: Json.Value, i: nat)
    requires AsArray(Field(commit, "files")).Some?
    requires var files := AsArray(Field(commit, "files")).value;
      i < |files| && AsStr(Field(files[i], "filename")).Some?
    ensures var files := AsArray(Field(commit, "files")).value;
      Contains(ChangedFiles(commit), AsStr(Field(files[i], "filename")).value)
  {
    var files := AsArray(Field(commit, "files")).value;
    var names := FileNames(files);
    FileNamesExactly(files);
    var n := AsStr(Field(files[i], "filename")).value;
    var k :| 0 <= k < |names| && names[k] == n;
    JoinContainsParts(names, ", ", k);
  }

  /** One more entry at the end of `files` adds its name at the end of the cell, after
      ", " unless it is the first name; an entry without a string `filename` adds
      nothing. */
  lemma ChangedFilesAppendEntry(commit: Json.Value, longer: Json.Value, f: Json.Value)
    requires AsArray(Field(commit, "files")).Some?
    requires AsArray(Field(longer, "files")) == Some(AsArray(Field(commit, "files")).value + [f])
    ensures var files := AsArray(Field(commit, "files")).value;
      match AsStr(Field(f, "filename"))
      case None => ChangedFiles(longer) == ChangedFiles(commit)
      case Some(n) =>
        ChangedFiles(longer) == if FileNames(files) == [] then n else ChangedFiles(commit) + ", " + n
  {
    var files := AsArray(Field(commit, "files")).value;
    FileNamesAppend(files, [f]);
    FileNamesOne(f);
    var names := FileNames(files);
    match AsStr(Field(f, "filename"))
    case None =>
      assert FileNames(files + [f]) == names;
    case Some(n) =>
      assert FileNames(files + [f]) == names + [n];
      if names != [] {
        JoinSnoc(names, n, ", ");
      }
  }

  /** A commit record without `files` has an empty cell. */
  lemma ChangedFilesMissing(commit: Json.Value)
    requires Field(commit, "files") == Null
    ensures ChangedFiles(commit) == ""
  {
  }

  function Sha(commit: Json.Value): string { StrOr(Field(commit, "sha"), "-") }

  /** A commit record without a string `sha` shows `-` as its short SHA. */
  lemma ShortShaMissing(commit: Json.Value)
    requires AsStr(Field(commit, "sha")).None?
    ensures ShortSha(Sha(commit)) == "-"
  {
  }

  /** The row of the commit at position k of the list. */
  function RowOf(prNumber: string, header: Header, k: nat, sha: string, commitRecord: Json.Value): (row: PRDetailsRow)
    ensures HasHeader(row) <==> k == 0
    ensures k == 0 ==> CarriesHeader(row, prNumber, header)
    ensures row.commitSha == ShortSha(sha) && row.changedFiles == ChangedFiles(commitRecord)
  {
    if k == 0 then
      PRDetailsRow("#" + prNumber, header.title, header.status, header.age, header.user,
                   ShortSha(sha), ChangedFiles(commitRecord))
    else
      PRDetailsRow("", "", "", "", "", ShortSha(sha), ChangedFiles(commitRecord))
  }

  /** Whether a row shows any of the PR-level cells (number, title, status, age, author). */
  predicate HasHeader(row: PRDetailsRow) {
    row.prNumber != "" || row.title != "" || row.status != "" || row.age != "" || row.githubUsername != ""
  }

  /** The row shows the PR number and exactly the header's title, status, age and author. */
  predicate CarriesHeader(row: PRDetailsRow, prNumber: string, header: Header) {
    && row.prNumber == "#" + prNumber
    && row.title == header.title
    && row.status == header.status
    && row.age == header.age
    && row.githubUsername == header.user
  }

  // ---- the commit loop ----

  /** The warning printed for a commit whose record answered with a non-2xx status. */
  datatype CommitSkipped = CommitSkipped(sha: string, text: string)

  datatype CommitFetched = Fatal(error: Error) | Skip(warning: CommitSkipped) | Shown(row: PRDetailsRow)

  function CommitUrlOf(owner: string, repo: string, commit: Json.Value): string {
    GitHub.CommitUrl(owner, repo, Sha(commit))
  }

  /** The commit at position k: transport and decoding failures are fatal, other
      statuses are skipped with a warning, the rest gives a row. */
  function Classify(owner: string, repo: string, host: Host, prNumber: string, header: Header,
                    commits: seq<Json.Value>, k: nat): (c: CommitFetched)
    requires k < |commits|
    ensures var r := host.value(CommitUrlOf(owner, repo, commits[k]));
      && (c.Skip? <==> r.Answered? && !IsSuccess(r.status))
      && (c.Skip? ==> c.warning == CommitSkipped(Sha(commits[k]), r.text))
      && (c.Shown? <==> r.Answered? && IsSuccess(r.status) && r.body.Parsed?)
      && (c.Shown? ==> (HasHeader(c.row) <==> k == 0) && c.row.commitSha == ShortSha(Sha(commits[k])))
  {
    var sha := Sha(commits[k]);
    match host.value(CommitUrlOf(owner, repo, commits[k]))
    case Unreachable(e) => Fatal(Transport(e))
    case Answered(status, text, body) =>
      if !IsSuccess(status) then Skip(CommitSkipped(sha, text))
      else
        match body
        case Malformed(e) => Fatal(Undecodable(e))
        case Parsed(record) => Shown(RowOf(prNumber, header, k, sha, record))
  }

  predicate NoFatalBefore(owner: string, repo: string, host: Host, prNumber: string, header: Header,
                          commits: seq<Json.Value>, n: nat)
    requires n <= |commits|
  {
    forall i :: 0 <= i < n ==> !Classify(owner, repo, host, prNumber, header, commits, i).Fatal?
  }

  lemma NoFatalStep(owner: string, repo: string, host: Host, prNumber: string, header: Header,
                    commits: seq<Json.Value>, n: nat)
    requires 0 < n <= |commits|
    ensures NoFatalBefore(owner, repo, host, prNumber, header, commits, n)
        <==> NoFatalBefore(owner, repo, host, prNumber, header, commits, n - 1)
             && !Classify(owner, repo, host, prNumber, header, commits, n - 1).Fatal?
  {
  }

  /** The rows of the first n commits, in order. */
  function ShownRows(owner: string, repo: string, host: Host, prNumber: string, header: Header,
                 commits: seq<Json.Value>, n: nat): seq<PRDetailsRow>
    requires n <= |commits|
  {
    if n == 0 then []
    else
      var c := Classify(owner, repo, host, prNumber, header, commits, n - 1);
      ShownRows(owner, repo, host, prNumber, header, commits, n - 1) + (if c.Shown? then [c.row] else [])
  }

  /** The state of the loop: the rows, the warnings, the commit requests sent, and the
      error it stopped on. */
  datatype Gathered = Gathered(rows: seq<PRDetailsRow>, warnings: seq<CommitSkipped>, requests: seq<Request>,
                               failure: Option<Error>)

  /** The loop over the first n commits. */
  function Gather(owner: string, repo: string, host: Host, prNumber: string, header: Header,
                  commits: seq<Json.Value>, n: nat): (g: Gathered)
    requires n <= |commits|
    ensures |g.rows| + |g.warnings| <= |g.requests| <= n
    decreases n
  {
    if n == 0 then Gathered([], [], [], None)
    else
      var g := Gather(owner, repo, host, prNumber, header, commits, n - 1);
      if g.failure.Some? then g
      else
        var requests := g.requests + [Get(CommitUrlOf(owner, repo, commits[n - 1]))];
        match Classify(owner, repo, host, prNumber, header, commits, n - 1)
        case Fatal(e) => Gathered(g.rows, g.warnings, requests, Some(e))
        case Skip(w) => Gathered(g.rows, g.warnings + [w], requests, None)
        case Shown(row) => Gathered(g.rows + [row], g.warnings, requests, None)
  }

  /** The loop ends without an error exactly when no commit is fatal. */
  lemma {:induction false} GatherFailsIffFatal(owner: string, repo: string, host: Host, prNumber: string, header: Header,
                                               commits: seq<Json.Value>, n: nat)
    requires n <= |commits|
    ensures Gather(owner, repo, host, prNumber, header, commits, n).failure.None?
        <==> NoFatalBefore(owner, repo, host, prNumber, header, commits, n)
    decreases n
  {
    if n > 0 {
      GatherFailsIffFatal(owner, repo, host, prNumber, header, commits, n - 1);
      NoFatalStep(owner, repo, host, prNumber, header, commits, n);
    }
  }

  /** A loop that ends without an error has fetched every commit and shows exactly
      the rows of those that answered 2xx, in order. */
  lemma {:induction false} GatherRowsWhenComplete(owner: string, repo: string, host: Host, prNumber: string, header: Header,
                                                  commits: seq<Json.Value>, n: nat)
    requires n <= |commits|
    ensures var g := Gather(owner, repo, host, prNumber, header, commits, n);
      g.failure.None? ==> |g.requests| == n && g.rows == ShownRows(owner, repo, host, prNumber, header, commits, n)
    decreases n
  {
    if n > 0 {
      GatherRowsWhenComplete(owner, repo, host, prNumber, header, commits, n - 1);
    }
  }

  /** Without a fatal commit the loop runs to the end and shows exactly the rows of the
      commits that answered 2xx, in order; with one it stops. */
  lemma GatherCompletes(owner: string, repo: string, host: Host, prNumber: string, header: Header,
                        commits: seq<Json.Value>, n: nat)
    requires n <= |commits|
    ensures var g := Gather(owner, repo, host, prNumber, header, commits, n);
      && (g.failure.None? <==> NoFatalBefore(owner, repo, host, prNumber, header, commits, n))
      && (g.failure.None? ==>
            |g.requests| == n && g.rows == ShownRows(owner, repo, host, prNumber, header, commits, n))
  {
    GatherFailsIffFatal(owner, repo, host, prNumber, header, commits, n);
    GatherRowsWhenComplete(owner, repo, host, prNumber, header, commits, n);
  }

  lemma {:induction false} GatherStops(owner: string, repo: string, host: Host, prNumber: string, header: Header,
                                       commits: seq<Json.Value>, n: nat, m: nat)
    requires n <= m <= |commits|
    requires Gather(owner, repo, host, prNumber, header, commits, n).failure.Some?
    ensures Gather(owner, repo, host, prNumber, header, commits, m) == Gather(owner, repo, host, prNumber, header, commits, n)
    decreases m
  {
    if m > n {
      GatherStops(owner, repo, host, prNumber, header, commits, n, m - 1);
      var g := Gather(owner, repo, host, prNumber, header, commits, m - 1);
      assert g.failure.Some?;
      assert Gather(owner, repo, host, prNumber, header, commits, m) == g;
    }
  }

  /** Only the row of commit 0 carries the PR-level fields; if commit 0 was skipped, no
      row carries them. */
  lemma {:induction false} ShownHeaderOnlyFirst(owner: string, repo: string, host: Host, prNumber: string, header: Header,
                                                commits: seq<Json.Value>, n: nat)
    requires n <= |commits|
    ensures var rows := ShownRows(owner, repo, host, prNumber, header, commits, n);
      && (forall j :: 0 < j < |rows| ==> !HasHeader(rows[j]))
      && (n > 0 && !Classify(owner, repo, host, prNumber, header, commits, 0).Shown? ==>
            forall j :: 0 <= j < |rows| ==> !HasHeader(rows[j]))
      && (n > 0 && Classify(owner, repo, host, prNumber, header, commits, 0).Shown? ==>
            |rows| > 0 && CarriesHeader(rows[0], prNumber, header))
    decreases n
  {
    if n > 0 {
      ShownHeaderOnlyFirst(owner, repo, host, prNumber, header, commits, n - 1);
      var prev := ShownRows(owner, repo, host, prNumber, header, commits, n - 1);
      var c := Classify(owner, repo, host, prNumber, header, commits, n - 1);
      var rows := ShownRows(owner, repo, host, prNumber, header, commits, n);
      assert rows == prev + (if c.Shown? then [c.row] else []);
      if n == 1 {
        assert prev == [];
      } else {
        assert c.Shown? ==> !HasHeader(c.row);
        forall j | 0 <= j < |rows| && (j > 0 || !Classify(owner, repo, host, prNumber, header, commits, 0).Shown?)
          ensures !HasHeader(rows[j])
        {
          if j < |prev| {
            assert rows[j] == prev[j];
            assert !HasHeader(ShownRows(owner, repo, host, prNumber, header, commits, n - 1)[j]);
          } else {
            assert rows[j] == c.row;
          }
        }
        if Classify(owner, repo, host, prNumber, header, commits, 0).Shown? {
          assert rows[0] == prev[0];
        }
      }
    }
  }

  // ---- the command ----

  /** The outcome (the rows of the table), every request sent, and the warnings. */
  datatype Details = Details(result: Result<seq<PRDetailsRow>>, requests: seq<Request>, warnings: seq<CommitSkipped>)

  /** `show_pull_request_details` as a whole. */
  function DetailsOf(p: GitHubProvider, host: Host, now: int, rfc3339: string -> Option<int>, prNumber: string)
    : (d: Details)
    ensures d.requests == [] <==> GitHub.InferRepoDetails(p.remoteUrl).None?
    ensures d.result.Ok? ==> |d.result.value| + |d.warnings| + 2 <= |d.requests|
  {
    match GitHub.InferRepoDetails(p.remoteUrl)
    case None => Details(Err(GitHub.NoRepoDetails), [], [])
    case Some((owner, repo)) =>
      var prUrl := GitHub.PullUrl(owner, repo, prNumber);
      match host.value(prUrl)
      case Unreachable(e) => Details(Err(Transport(e)), [Get(prUrl)], [])
      case Answered(status, text, body) =>
        if !IsSuccess(status) then Details(Err(Message("Failed to fetch PR details: " + text)), [Get(prUrl)], [])
        else
          match body
          case Malformed(e) => Details(Err(Undecodable(e)), [Get(prUrl)], [])
          case Parsed(pr) =>
            match HeaderOf(pr, now, rfc3339)
            case Err(e) => Details(Err(e), [Get(prUrl)], [])
            case Ok(header) =>
              var commitsUrl := GitHub.PullCommitsUrl(owner, repo, prNumber);
              var sent := [Get(prUrl), Get(commitsUrl)];
              match host.commits(commitsUrl)
              case Unreachable(e) => Details(Err(Transport(e)), sent, [])
              case Answered(status', text', body') =>
                if !IsSuccess(status') then Details(Err(Message("Failed to fetch commits: " + text')), sent, [])
                else
                  match body'
                  case Malformed(e) => Details(Err(Undecodable(e)), sent, [])
                  case Parsed(commits) =>
                    var g := Gather(owner, repo, host, prNumber, header, commits, |commits|);
                    match g.failure
                    case Some(e) => Details(Err(e), sent + g.requests, g.warnings)
                    case None => Details(Ok(g.rows), sent + g.requests, g.warnings)
  }

  /** The imperative form: an enumerate loop that pushes one row per shown commit. */
  method ShowPullRequestDetails(p: GitHubProvider, host: Host, now: int, rfc3339: string -> Option<int>, prNumber: string)
    returns (details: Details)
    ensures details == DetailsOf(p, host, now, rfc3339, prNumber)
  {
    var repoDetails := GitHub.InferRepoDetails(p.remoteUrl);
    if repoDetails.None? {
      return Details(Err(GitHub.NoRepoDetails), [], []);
    }
    var (owner, repo) := repoDetails.value;
    var prUrl := GitHub.PullUrl(owner, repo, prNumber);
    var prReply := host.value(prUrl);
    if prReply.Unreachable? {
      return Details(Err(Transport(prReply.reason)), [Get(prUrl)], []);
    }
    if !IsSuccess(prReply.status) {
      return Details(Err(Message("Failed to fetch PR details: " + prReply.text)), [Get(prUrl)], []);
    }
    if prReply.body.Malformed? {
      return Details(Err(Undecodable(prReply.body.reason)), [Get(prUrl)], []);
    }
    var header := HeaderOf(prReply.body.value, now, rfc3339);
    if header.Err? {
      return Details(Err(header.error), [Get(prUrl)], []);
    }
    var commitsUrl := GitHub.PullCommitsUrl(owner, repo, prNumber);
    var commitsReply := host.commits(commitsUrl);
    var sent := [Get(prUrl), Get(commitsUrl)];
    if commitsReply.Unreachable? {
      return Details(Err(Transport(commitsReply.reason)), sent, []);
    }
    if !IsSuccess(commitsReply.status) {
      return Details(Err(Message("Failed to fetch commits: " + commitsReply.text)), sent, []);
    }
    if commitsReply.body.Malformed? {
      return Details(Err(Undecodable(commitsReply.body.reason)), sent, []);
    }
    var commits := commitsReply.body.value;

    var g := CollectRows(owner, repo, host, prNumber, header.value, commits);
    if g.failure.Some? {
      return Details(Err(g.failure.value), sent + g.requests, g.warnings);
    }
    details := Details(Ok(g.rows), sent + g.requests, g.warnings);
  }

  /** The `for (i, commit) in commits.iter().enumerate()` loop. */
  method CollectRows(owner: string, repo: string, host: Host, prNumber: string, header: Header,
                     commits: seq<Json.Value>) returns (g: Gathered)
    ensures g == Gather(owner, repo, host, prNumber, header, commits, |commits|)
  {
    var rows: seq<PRDetailsRow> := [];
    var warnings: seq<CommitSkipped> := [];
    var sent: seq<Request> := [];
    var i := 0;
    while i < |commits|
      invariant 0 <= i <= |commits|
      invariant Gather(owner, repo, host, prNumber, header, commits, i) == Gathered(rows, warnings, sent, None)
    {
      var sha := Sha(commits[i]);
      var commitUrl := GitHub.CommitUrl(owner, repo, sha);
      sent := sent + [Get(commitUrl)];
      var reply := host.value(commitUrl);
      if reply.Unreachable? {
        GatherStops(owner, repo, host, prNumber, header, commits, i + 1, |commits|);
        return Gathered(rows, warnings, sent, Some(Transport(reply.reason)));
      }
      if !IsSuccess(reply.status) {
        warnings := warnings + [CommitSkipped(sha, reply.text)];
        i := i + 1;
        continue;
      }
      if reply.body.Malformed? {
        GatherStops(owner, repo, host, prNumber, header, commits, i + 1, |commits|);
        return Gathered(rows, warnings, sent, Some(Undecodable(reply.body.reason)));
      }
      rows := rows + [RowOf(prNumber, header, i, sha, reply.body.value)];
      i := i + 1;
    }
    g := Gathered(rows, warnings, sent, None);
  }

  // ---- what the command promises ----

  /** A PR answer that is not 2xx is an error carrying its text; nothing else is fetched. */
  lemma DetailsPrRejected(p: GitHubProvider, host: Host, now: int, rfc3339: string -> Option<int>, prNumber: string,
                          owner: string, repo: string)
    requires GitHub.InferRepoDetails(p.remoteUrl) == Some((owner, repo))
    requires var r := host.value(GitHub.PullUrl(owner, repo, prNumber)); r.Answered? && !IsSuccess(r.status)
    ensures var d := DetailsOf(p, host, now, rfc3339, prNumber);
      && d.result == Err(Message("Failed to fetch PR details: " + host.value(GitHub.PullUrl(owner, repo, prNumber)).text))
      && d.requests == [Get(GitHub.PullUrl(owner, repo, prNumber))]
  {
  }

  /** A PR without `created_at` is an error before the commit list is fetched. */
  lemma DetailsNeedCreatedAt(p: GitHubProvider, host: Host, now: int, rfc3339: string -> Option<int>, prNumber: string,
                             owner: string, repo: string)
    requires GitHub.InferRepoDetails(p.remoteUrl) == Some((owner, repo))
    requires var r := host.value(GitHub.PullUrl(owner, repo, prNumber));
      r.Answered? && IsSuccess(r.status) && r.body.Parsed? && AsStr(Field(r.body.value, "created_at")).None?
    ensures var d := DetailsOf(p, host, now, rfc3339, prNumber);
      d.result == Err(BadTimestamp("-")) && |d.requests| == 1
  {
    MissingCreatedAtFails(host.value(GitHub.PullUrl(owner, repo, prNumber)).body.value, now, rfc3339);
  }

  /** A commit-list answer that is not 2xx is an error carrying its text, with no rows. */
  lemma DetailsCommitsRejected(p: GitHubProvider, host: Host, now: int, rfc3339: string -> Option<int>, prNumber: string,
                               owner: string, repo: string)
    requires GitHub.InferRepoDetails(p.remoteUrl) == Some((owner, repo))
    requires var r := host.value(GitHub.PullUrl(owner, repo, prNumber));
      r.Answered? && IsSuccess(r.status) && r.body.Parsed? && HeaderOf(r.body.value, now, rfc3339).Ok?
    requires var c := host.commits(GitHub.PullCommitsUrl(owner, repo, prNumber)); c.Answered? && !IsSuccess(c.status)
    ensures var d := DetailsOf(p, host, now, rfc3339, prNumber);
      && d.result == Err(Message("Failed to fetch commits: " + host.commits(GitHub.PullCommitsUrl(owner, repo, prNumber)).text))
      && |d.requests| == 2
  {
  }

  /** With no fatal commit the table has one row per commit that answered 2xx, in
      commit order, one commit request per commit; only its first row can carry the
      PR-level fields, and none does if commit 0 was skipped. */
  lemma DetailsRowsPerCommit(p: GitHubProvider, host: Host, now: int, rfc3339: string -> Option<int>, prNumber: string,
                             owner: string, repo: string, header: Header, commits: seq<Json.Value>)
    requires GitHub.InferRepoDetails(p.remoteUrl) == Some((owner, repo))
    requires var r := host.value(GitHub.PullUrl(owner, repo, prNumber));
      r.Answered? && IsSuccess(r.status) && r.body.Parsed? && HeaderOf(r.body.value, now, rfc3339) == Ok(header)
    requires var c := host.commits(GitHub.PullCommitsUrl(owner, repo, prNumber));
      c.Answered? && IsSuccess(c.status) && c.body == Parsed(commits)
    requires NoFatalBefore(owner, repo, host, prNumber, header, commits, |commits|)
    ensures var d := DetailsOf(p, host, now, rfc3339, prNumber);
      && d.result == Ok(ShownRows(owner, repo, host, prNumber, header, commits, |commits|))
      && |d.requests| == 2 + |commits|
      && (forall j :: 0 < j < |d.result.value| ==> !HasHeader(d.result.value[j]))
      && (|commits| > 0 && !Classify(owner, repo, host, prNumber, header, commits, 0).Shown? ==>
            forall j :: 0 <= j < |d.result.value| ==> !HasHeader(d.result.value[j]))
      && (|commits| > 0 && Classify(owner, repo, host, prNumber, header, commits, 0).Shown? ==>
            |d.result.value| > 0 && CarriesHeader(d.result.value[0], prNumber, header))
  {
    GatherCompletes(owner, repo, host, prNumber, header, commits, |commits|);
    ShownHeaderOnlyFirst(owner, repo, host, prNumber, header, commits, |commits|);
  }
}
