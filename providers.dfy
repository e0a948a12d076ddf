/** `providers/mod.rs`: choosing the hosting service from the remote URL. */
module Providers {
  import opened Outcomes
  import opened Text
  import opened Models
  import GitHub

  const Unsupported := Message("Unsupported provider")

  /** `get_provider`: a remote naming "github.com" gets a GitHub provider (whose
      construction needs `GITHUB_TOKEN`); any other remote is unsupported. */
  function GetProvider(remoteUrl: string, token: Option<string>): (r: Result<GitHubProvider>)
    ensures !Contains(remoteUrl, "github.com") ==> r == Err(Unsupported)
    ensures Contains(remoteUrl, "github.com") ==> (r.Ok? <==> token.Some?)
    ensures r.Ok? ==> r.value.remoteUrl == remoteUrl && r.value.token == token.value
  {
    if Contains(remoteUrl, "github.com") then GitHub.New(remoteUrl, token) else Err(Unsupported)
  }

  /** An unsupported remote is refused whatever the token: the token is never read. */
  lemma UnsupportedIgnoresToken(remoteUrl: string, t1: Option<string>, t2: Option<string>)
    requires !Contains(remoteUrl, "github.com")
    ensures GetProvider(remoteUrl, t1) == GetProvider(remoteUrl, t2) == Err(Unsupported)
  {
  }

  /** A GitHub remote yields exactly what `GitHubProvider::new` yields. */
  lemma GitHubRemoteIsConstructed(remoteUrl: string, token: Option<string>)
    requires Contains(remoteUrl, "github.com")
    ensures GetProvider(remoteUrl, token) == GitHub.New(remoteUrl, token)
  {
  }

  /** Every remote `get_provider` accepts passes the host test of
      `infer_repo_details`, although it may still fail its segment test. */
  lemma AcceptedRemotePassesHostTest(remoteUrl: string, token: Option<string>)
    requires GetProvider(remoteUrl, token).Ok?
    ensures Contains(TrimEndMatches(remoteUrl, ".git"), "github.com")
  {
    GitHub.ProviderHostSurvivesTrim(remoteUrl);
  }

  /** The bare host is accepted (with a token) yet names no repository. */
  lemma AcceptedRemoteMayNotParse(token: string)
    ensures GetProvider("github.com", Some(token)).Ok?
    ensures GitHub.InferRepoDetails("github.com") == None
  {
    GitHub.InferRejectsBareHost();
  }
}
