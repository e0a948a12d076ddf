/**
  `GitHubProvider` in `github.rs`: construction, the remote identity parser, the API
  URLs, and the two write operations, `submit_review` and `close_pull_request`.
  Every operation returns its `Result` together with the requests it sent.
 */
module GitHub {
  import opened Outcomes
  import opened Text
  import opened Json
  import opened Models
  import opened Http

  /** A result together with the requests sent to produce it, in order. */
  datatype Exchange<+T> = Exchange(result: Result<T>, requests: seq<Request>)

  const NoRepoDetails := Message("Could not parse owner/repo")

  // ---- construction ----

  /** `GitHubProvider::new`: `token` is what `env::var("GITHUB_TOKEN")` yields
      (None when it is unset). */
  function New(remoteUrl: string, token: Option<string>): (r: Result<GitHubProvider>)
    ensures r.Ok? <==> token.Some?
    ensures r.Ok? ==> r.value.remoteUrl == remoteUrl && r.value.token == token.value
    ensures r.Err? ==> r.error == TokenUnset
  {
    match token
    case None => Err(TokenUnset)
    case Some(t) => Ok(GitHubProvider(remoteUrl, t))
  }

  // ---- remote identity ----

  /** The string whose '/'-pieces name the repository: the whole URL when it starts
      with "http", otherwise what follows its last ':' (`split(':').last()` always
      has an element, so its `?` never returns). */
  function PathPart(url: string): string {
    if StartsWith(url, "http") then url else LastPiece(url, ':')
  }

  /** `infer_repo_details`: after trimming every trailing ".git", a URL naming
      "github.com" whose path part holds a '/' gives the last two '/'-pieces of that
      part as (owner, repo); any other URL gives None. */
  function InferRepoDetails(remoteUrl: string): (r: Option<(string, string)>)
    ensures var url := TrimEndMatches(remoteUrl, ".git");
      r.Some? <==> Contains(url, "github.com") && '/' in PathPart(url)
    ensures r.Some? ==> '/' !in r.value.0 && '/' !in r.value.1
    ensures r.Some? ==>
      var path := PathPart(TrimEndMatches(remoteUrl, ".git"));
      var tail := r.value.0 + "/" + r.value.1;
      EndsWith(path, tail) && (|path| == |tail| || path[|path| - |tail| - 1] == '/')
  {
    var url := TrimEndMatches(remoteUrl, ".git");
    if Contains(url, "github.com") then
      var parts := Split(PathPart(url), '/');
      SplitHasTwoPieces(PathPart(url), '/');
      if |parts| >= 2 then
        JoinSplit(PathPart(url), '/');
        JoinLastTwo(parts, '/');
        Some((parts[|parts| - 2], parts[|parts| - 1]))
      else None
    else None
  }

  /** `parts.join(c)` ends with its last two parts, preceded by `c` unless there
      are no others. */
  lemma JoinLastTwo(parts: seq<string>, c: char)
    requires |parts| >= 2
    ensures var s := Join(parts, [c]);
      var tail := parts[|parts| - 2] + [c] + parts[|parts| - 1];
      EndsWith(s, tail) && (|s| == |tail| || s[|s| - |tail| - 1] == c)
  {
    var s := Join(parts, [c]);
    var x, y := parts[|parts| - 1], parts[|parts| - 2];
    var tail := y + [c] + x;
    if |parts| == 2 {
      assert parts[1..] == [x];
      assert Join(parts[1..], [c]) == x;
      assert s == parts[0] + [c] + x;
    } else {
      var init := parts[..|parts| - 1];
      var front := init[..|init| - 1];
      assert parts == init + [x];
      assert init == front + [y];
      JoinSnoc(init, x, [c]);
      JoinSnoc(front, y, [c]);
      var j := Join(front, [c]);
      assert s == (j + [c]) + tail;
      assert s[|s| - |tail|..] == tail;
      assert s[|s| - |tail| - 1] == c;
    }
  }



  /** Trimming a trailing ".git" never removes the occurrence of "github.com" that
      `get_provider` found: the 'm' that ends it is not a character of ".git". */
  lemma ProviderHostSurvivesTrim(remoteUrl: string)
    requires Contains(remoteUrl, "github.com")
    ensures Contains(TrimEndMatches(remoteUrl, ".git"), "github.com")
  {
    TrimEndMatchesKeepsContains(remoteUrl, ".git", "github.com");
  }

  /** A URL and the same URL with ".git" appended name the same repository. */
  lemma InferIgnoresGitSuffix(u: string)
    ensures InferRepoDetails(u + ".git") == InferRepoDetails(u)
  {
    TrimEndMatchesAppend(u, ".git");
  }

  /** Appending a '/' and a piece that does not end in ".git" gives a string that
      does not end in ".git" either. */
  lemma NoGitSuffix(a: string, b: string)
    requires !EndsWith(b, ".git")
    ensures !EndsWith(a + "/" + b, ".git")
  {
    var s := a + "/" + b;
    if |b| >= 4 {
      assert s[|s| - 4..] == b[|b| - 4..];
    } else {
      assert s[|a|] == '/';
    }
  }

  /** The '/'-pieces of an HTTPS remote. */
  lemma HttpsPieces(owner: string, repo: string)
    requires '/' !in owner && '/' !in repo
    ensures Split("https://github.com/" + owner + "/" + repo, '/') == ["https:", "", "github.com", owner, repo]
  {
    var u := "https://github.com/" + owner + "/" + repo;
    var p4 := [owner, repo];
    var p3 := ["github.com"] + p4;
    var p2 := [""] + p3;
    var parts := ["https:"] + p2;
    assert Join(p4, "/") == owner + "/" + repo by { assert p4[1..] == [repo]; }
    assert Join(p3, "/") == "github.com" + "/" + owner + "/" + repo by { assert p3[1..] == p4; }
    assert Join(p2, "/") == "" + "/" + "github.com" + "/" + owner + "/" + repo by { assert p2[1..] == p3; }
    assert Join(parts, "/") == u by { assert parts[1..] == p2; }
    forall i | 0 <= i < |parts| ensures '/' !in parts[i] {
      assert "https:"[5] == ':';
    }
    SplitJoin(parts, '/');
  }

  /** An HTTPS remote starts with "http" and names the host. */
  lemma HttpsHost(owner: string, repo: string)
    ensures var u := "https://github.com/" + owner + "/" + repo;
      StartsWith(u, "http") && Contains(u, "github.com")
  {
    var u := "https://github.com/" + owner + "/" + repo;
    assert u[8..18] == "github.com";
    ContainsAt(u, "github.com", 8);
    assert u[..4] == "http";
  }

  /** The HTTPS form of a remote names its owner and repository, with or without
      ".git". */
  lemma InferHttps(owner: string, repo: string)
    requires '/' !in owner && '/' !in repo && !EndsWith(repo, ".git")
    ensures InferRepoDetails("https://github.com/" + owner + "/" + repo) == Some((owner, repo))
    ensures InferRepoDetails("https://github.com/" + owner + "/" + repo + ".git") == Some((owner, repo))
  {
    var u := "https://github.com/" + owner + "/" + repo;
    NoGitSuffix("https://github.com/" + owner, repo);
    TrimEndMatchesNoSuffix(u, ".git");
    HttpsHost(owner, repo);
    HttpsPieces(owner, repo);
    assert PathPart(u) == u;
    InferIgnoresGitSuffix(u);
  }

  /** The SSH form `git@github.com:owner/repo` starts with something other than
      "http" and names the host. */
  lemma SshHost(path: string)
    ensures var u := "git@github.com:" + path;
      !StartsWith(u, "http") && Contains(u, "github.com")
  {
    var u := "git@github.com:" + path;
    assert u[4..14] == "github.com";
    ContainsAt(u, "github.com", 4);
    assert u[0] == 'g';
  }

  /** What follows the ':' of an SSH remote, and its '/'-pieces. */
  lemma SshPieces(owner: string, repo: string)
    requires '/' !in owner && '/' !in repo && ':' !in owner && ':' !in repo
    ensures LastPiece("git@github.com:" + owner + "/" + repo, ':') == owner + "/" + repo
    ensures Split(owner + "/" + repo, '/') == [owner, repo]
  {
    var path := owner + "/" + repo;
    assert ':' !in path;
    assert Join(["git@github.com", path], ":") == "git@github.com:" + owner + "/" + repo;
    SplitJoin(["git@github.com", path], ':');
    assert Join([owner, repo], "/") == path;
    SplitJoin([owner, repo], '/');
  }

  /** The SSH form `git@github.com:owner/repo` names its owner and repository,
      with or without ".git". */
  lemma InferSsh(owner: string, repo: string)
    requires '/' !in owner && '/' !in repo && ':' !in owner && ':' !in repo
    requires !EndsWith(repo, ".git")
    ensures InferRepoDetails("git@github.com:" + owner + "/" + repo) == Some((owner, repo))
    ensures InferRepoDetails("git@github.com:" + owner + "/" + repo + ".git") == Some((owner, repo))
  {
    var path := owner + "/" + repo;
    var u := "git@github.com:" + path;
    assert u == "git@github.com:" + owner + "/" + repo;
    NoGitSuffix("git@github.com:" + owner, repo);
    TrimEndMatchesNoSuffix(u, ".git");
    SshHost(path);
    SshPieces(owner, repo);
    assert PathPart(u) == path;
    InferIgnoresGitSuffix(u);
  }

  /** The two remotes quoted in the program's own comments and documentation. */
  lemma InferSshExample()
    ensures InferRepoDetails("git@github.com:foo/bar.git") == Some(("foo", "bar"))
  {
    var u := "git@github.com:foo/bar.git";
    assert u == "git@github.com:" + "foo" + "/" + "bar" + ".git";
    InferSsh("foo", "bar");
  }

  lemma InferHttpsExample()
    ensures InferRepoDetails("https://github.com/foo/bar.git") == Some(("foo", "bar"))
  {
    var u := "https://github.com/foo/bar.git";
    assert u == "https://github.com/" + "foo" + "/" + "bar" + ".git";
    InferHttps("foo", "bar");
  }

  /** The HTTPS remote of the `get_provider` documentation. */
  lemma InferDocumentedHttps()
    ensures InferRepoDetails("https://github.com/user/repo.git") == Some(("user", "repo"))
  {
    var u := "https://github.com/user/repo.git";
    assert u == "https://github.com/" + "user" + "/" + "repo" + ".git";
    InferHttps("user", "repo");
  }

  /** A remote without a '/' names no repository: neither the whole URL nor what
      follows its last ':' holds one. */
  lemma InferNeedsSlash(remoteUrl: string)
    requires '/' !in remoteUrl
    ensures InferRepoDetails(remoteUrl) == None
  {
    var url := TrimEndMatches(remoteUrl, ".git");
    assert url == remoteUrl[..|url|];
    assert forall x :: x in url ==> x in remoteUrl;
    SplitPiecesWithout(url, ':', '/');
  }

  /** An SSH remote without a '/' after its ':' cannot be parsed, even though
      `get_provider` accepts it. */
  lemma InferRejectsMissingSegment()
    ensures Contains("git@github.com:repo", "github.com")
    ensures InferRepoDetails("git@github.com:repo") == None
  {
    SshHost("repo");
    assert "git@github.com:" + "repo" == "git@github.com:repo";
    InferNeedsSlash("git@github.com:repo");
  }

  /** The bare host is accepted by `get_provider` but names no repository. */
  lemma InferRejectsBareHost()
    ensures Contains("github.com", "github.com")
    ensures InferRepoDetails("github.com") == None
  {
    ContainsAt("github.com", "github.com", 0);
    InferNeedsSlash("github.com");
  }

  // ---- API URLs ----

  const Api := "https://api.github.com"

  function PullUrl(owner: string, repo: string, prNumber: string): string {
    Api + "/repos/" + owner + "/" + repo + "/pulls/" + prNumber
  }

  function ReviewsUrl(owner: string, repo: string, prNumber: string): string {
    PullUrl(owner, repo, prNumber) + "/reviews"
  }

  function PullCommitsUrl(owner: string, repo: string, prNumber: string): string {
    PullUrl(owner, repo, prNumber) + "/commits"
  }

  function OpenPullsUrl(owner: string, repo: string): string {
    Api + "/repos/" + owner + "/" + repo + "/pulls?state=open&per_page=50"
  }

  function CommitUrl(owner: string, repo: string, sha: string): string {
    Api + "/repos/" + owner + "/" + repo + "/commits/" + sha
  }

  const UserUrl := Api + "/user"

  // ---- submit_review ----

  /** The review payload `{"body": message, "event": event, "commit_id": sha}`. */
  function ReviewPayload(message: string, event: string, sha: string): Json.Value {
    Object(map["body" := Str(message), "event" := Str(event), "commit_id" := Str(sha)])
  }

  /** `head.sha` of a PR record, when it is a string. */
  function HeadSha(pr: Json.Value): Option<string> {
    AsStr(Field(Field(pr, "head"), "sha"))
  }

  /** `submit_review`: reads the PR (its status unchecked) for the head SHA, then
      POSTs the review pinned to that SHA; Ok exactly on a 2xx answer. */
  function SubmitReview(p: GitHubProvider, host: Host, prNumber: string, message: string, event: string)
    : (e: Exchange<()>)
    ensures |e.requests| <= 2
    ensures e.requests == [] <==> InferRepoDetails(p.remoteUrl).None?
    ensures e.result.Ok? ==> |e.requests| == 2 && e.requests[0].Get? && e.requests[1].Post?
  {
    match InferRepoDetails(p.remoteUrl)
    case None => Exchange(Err(NoRepoDetails), [])
    case Some((owner, repo)) =>
      var prUrl := PullUrl(owner, repo, prNumber);
      match host.value(prUrl)
      case Unreachable(e) => Exchange(Err(Transport(e)), [Get(prUrl)])
      case Answered(_, _, Malformed(e)) => Exchange(Err(Undecodable(e)), [Get(prUrl)])
      case Answered(_, _, Parsed(pr)) =>
        match HeadSha(pr)
        case None => Exchange(Err(Message("Could not extract commit_id")), [Get(prUrl)])
        case Some(sha) =>
          var reviewUrl := ReviewsUrl(owner, repo, prNumber);
          var payload := ReviewPayload(message, event, sha);
          var sent := [Get(prUrl), Post(reviewUrl, payload)];
          match host.post(reviewUrl, payload)
          case Unreachable(e) => Exchange(Err(Transport(e)), sent)
          case Answered(status, text, _) =>
            if IsSuccess(status) then Exchange(Ok(()), sent)
            else Exchange(Err(Message("Failed to submit review: " + text)), sent)
  }

  /** The head SHA `submit_review` reads, if it gets that far. */
  function FetchedSha(p: GitHubProvider, host: Host, prNumber: string): Option<string> {
    match InferRepoDetails(p.remoteUrl)
    case None => None
    case Some((owner, repo)) =>
      match host.value(PullUrl(owner, repo, prNumber))
      case Answered(_, _, Parsed(pr)) => HeadSha(pr)
      case _ => None
  }

  /** The review is posted exactly when the fresh read of the PR yields a string
      `head.sha`, and then it is the one POST, to the reviews URL, with exactly the
      message, the event as given, and that SHA. */
  lemma SubmitReviewPostsPinnedReview(p: GitHubProvider, host: Host, prNumber: string, message: string, event: string)
    ensures var x := SubmitReview(p, host, prNumber, message, event);
      (exists i :: 0 <= i < |x.requests| && x.requests[i].Post?) <==> FetchedSha(p, host, prNumber).Some?
    ensures var x := SubmitReview(p, host, prNumber, message, event);
      FetchedSha(p, host, prNumber).Some? ==>
        var (owner, repo) := InferRepoDetails(p.remoteUrl).value;
        x.requests == [Get(PullUrl(owner, repo, prNumber)),
                       Post(ReviewsUrl(owner, repo, prNumber),
                            ReviewPayload(message, event, FetchedSha(p, host, prNumber).value))]
    ensures var x := SubmitReview(p, host, prNumber, message, event);
      FetchedSha(p, host, prNumber).None? ==> x.result.Err? && |x.requests| <= 1
  {
    var x := SubmitReview(p, host, prNumber, message, event);
    if FetchedSha(p, host, prNumber).Some? {
      assert x.requests[1].Post?;
    } else {
      assert forall i :: 0 <= i < |x.requests| ==> x.requests[i].Get?;
    }
  }

  /** The review succeeds exactly when its POST is answered with a 2xx status; a
      non-2xx answer is reported with the service's response text. */
  lemma SubmitReviewOkIffPosted2xx(p: GitHubProvider, host: Host, prNumber: string, message: string, event: string)
    requires FetchedSha(p, host, prNumber).Some?
    ensures var (owner, repo) := InferRepoDetails(p.remoteUrl).value;
      var reply := host.post(ReviewsUrl(owner, repo, prNumber),
                             ReviewPayload(message, event, FetchedSha(p, host, prNumber).value));
      var x := SubmitReview(p, host, prNumber, message, event);
      (x.result.Ok? <==> reply.Answered? && IsSuccess(reply.status))
      && (reply.Answered? && !IsSuccess(reply.status) ==>
            x.result == Err(Message("Failed to submit review: " + reply.text)))
  {
  }

  /** The payload has exactly the three fields, holding the inputs verbatim. */
  lemma ReviewPayloadFields(message: string, event: string, sha: string)
    ensures var v := ReviewPayload(message, event, sha);
      v.Object? && v.fields.Keys == {"body", "event", "commit_id"}
      && Field(v, "body") == Str(message) && Field(v, "event") == Str(event)
      && Field(v, "commit_id") == Str(sha)
  {
  }

  /** Replacing the status of the PR read changes nothing: `submit_review` never
      looks at it. */
  lemma SubmitReviewIgnoresReadStatus(p: GitHubProvider, host: Host, prNumber: string, message: string, event: string, status: int)
    requires InferRepoDetails(p.remoteUrl).Some?
    ensures var (owner, repo) := InferRepoDetails(p.remoteUrl).value;
      var prUrl := PullUrl(owner, repo, prNumber);
      var host' := host.(value := (u: string) =>
        if u == prUrl && host.value(u).Answered? then host.value(u).(status := status) else host.value(u));
      SubmitReview(p, host', prNumber, message, event) == SubmitReview(p, host, prNumber, message, event)
  {
  }

  // ---- close_pull_request ----

  const ClosePayload := Object(map["state" := Str("closed")])

  /** `close_pull_request`: PATCHes `{"state": "closed"}` onto the PR; Ok exactly on
      a 2xx answer, otherwise the service's text is reported. */
  function ClosePullRequest(p: GitHubProvider, host: Host, prNumber: string): (x: Exchange<()>)
    ensures InferRepoDetails(p.remoteUrl).None? ==> x == Exchange(Err(NoRepoDetails), [])
    ensures InferRepoDetails(p.remoteUrl).Some? ==>
      var (owner, repo) := InferRepoDetails(p.remoteUrl).value;
      var url := PullUrl(owner, repo, prNumber);
      var reply := host.patch(url, ClosePayload);
      x.requests == [Patch(url, ClosePayload)]
      && (x.result.Ok? <==> reply.Answered? && IsSuccess(reply.status))
      && (reply.Answered? && !IsSuccess(reply.status) ==>
            x.result == Err(Message("Failed to close PR: " + reply.text)))
  {
    match InferRepoDetails(p.remoteUrl)
    case None => Exchange(Err(NoRepoDetails), [])
    case Some((owner, repo)) =>
      var url := PullUrl(owner, repo, prNumber);
      var sent := [Patch(url, ClosePayload)];
      match host.patch(url, ClosePayload)
      case Unreachable(e) => Exchange(Err(Transport(e)), sent)
      case Answered(status, text, _) =>
        if IsSuccess(status) then Exchange(Ok(()), sent)
        else Exchange(Err(Message("Failed to close PR: " + text)), sent)
  }
}
