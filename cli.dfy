/**
  `main.rs`: the command line, the startup gates (remote URL, provider) and the
  dispatch to the provider. The provider operations are given by what they yield,
  so every property here holds whatever the provider does.
 */
module Cli {
  import opened Outcomes
  import opened Text
  import opened Models
  import Providers

  /** The subcommands as clap parses them; a missing `--message` is None. */
  datatype Command =
    | Pull(prNumber: string)
    | ShowDetails(prNumber: string)
    | ShowDiff(prNumber: string)
    | SubmitReview(prNumber: string, message: Option<string>, approve: bool, reject: bool, commentOnly: bool)
    | List

  /** A call `main` makes on the provider. */
  datatype Call =
    | ListCall
    | DetailsCall(prNumber: string)
    | PullCall(prNumber: string)
    | DiffCall(prNumber: string)
    | ReviewCall(prNumber: string, message: string, event: string)
    | CloseCall(prNumber: string)

  /** What each provider operation yields. */
  datatype Provided = Provided(
    list: Result<()>,
    details: string -> Result<()>,
    review: (string, string, string) -> Result<()>,
    close: string -> Result<()>,
    pull: string -> Termination,
    diff: string -> Termination)

  /** The provider calls made, in order, and the exit status of the process. */
  datatype Run = Run(calls: seq<Call>, exit: int)

  const DefaultMessage := "Looks good to me."

  /** The three review events GitHub accepts; the last one is spelt with an
      underscore between its two words. */
  const Approve := "APPROVE"
  const Comment := "COMMENT"
  const RequestChanges := "REQUEST" + "_" + "CHANGES"

  /** Exit status 2: clap refuses the command line in `Cli::parse()`, the first
      statement of `main`. */
  const UsageError := 2

  /** The status a `Termination` leaves the process with; a panic exits with 101. */
  function ExitCode(t: Termination): int {
    match t
    case Returned => 0
    case Exited(code) => code
    case Panicked(_) => 101
  }

  /** `conflicts_with_all`: at most one of the three review flags. */
  predicate Conflicting(cmd: Command)
    requires cmd.SubmitReview?
  {
    (cmd.approve && cmd.reject) || (cmd.approve && cmd.commentOnly) || (cmd.reject && cmd.commentOnly)
  }

  /** The review event of a flag combination clap accepts. */
  function EventFor(approve: bool, reject: bool, commentOnly: bool): string {
    if reject then RequestChanges else if commentOnly then Comment else Approve
  }

  function MessageOf(message: Option<string>): string {
    match message
    case Some(m) => m
    case None => DefaultMessage
  }

  function Status(r: Result<()>): int {
    if r.Err? then 1 else 0
  }

  /** The `SubmitReview` arm: one review, and for `--reject` a close after a
      successful review. */
  function Review(cmd: Command, env: Provided): (run: Run)
    requires cmd.SubmitReview?
    ensures 1 <= |run.calls| <= 2 && run.calls[0].ReviewCall? && run.calls[0].prNumber == cmd.prNumber
    ensures run.calls[0].message == MessageOf(cmd.message)
    ensures !Conflicting(cmd) ==> run.calls[0].event == EventFor(cmd.approve, cmd.reject, cmd.commentOnly)
    ensures |run.calls| == 2 ==> cmd.reject && !cmd.approve && run.calls[1] == CloseCall(cmd.prNumber)
  {
    var n, m := cmd.prNumber, MessageOf(cmd.message);
    if cmd.approve then
      Run([ReviewCall(n, m, Approve)], Status(env.review(n, m, Approve)))
    else if cmd.reject then
      var review := ReviewCall(n, m, RequestChanges);
      if env.review(n, m, RequestChanges).Err? then Run([review], 1)
      else Run([review, CloseCall(n)], Status(env.close(n)))
    else if cmd.commentOnly then
      Run([ReviewCall(n, m, Comment)], Status(env.review(n, m, Comment)))
    else
      Run([ReviewCall(n, m, Approve)], Status(env.review(n, m, Approve)))
  }

  /** The `match cli.command` dispatch. */
  function Dispatch(cmd: Command, env: Provided): (run: Run)
    ensures 1 <= |run.calls| <= 2
    ensures !cmd.SubmitReview? ==> |run.calls| == 1
  {
    match cmd
    case List => Run([ListCall], Status(env.list))
    case ShowDetails(n) => Run([DetailsCall(n)], Status(env.details(n)))
    case Pull(n) => Run([PullCall(n)], ExitCode(env.pull(n)))
    case ShowDiff(n) => Run([DiffCall(n)], ExitCode(env.diff(n)))
    case SubmitReview(_, _, _, _, _) => Review(cmd, env)
  }

  /** `main`: the command line, the remote URL, the provider, then the dispatch. */
  function Main(cmd: Command, remoteUrl: Option<string>, token: Option<string>, env: Provided): (run: Run)
    ensures |run.calls| <= 2
    ensures run.calls == [] ==> run.exit == 1 || run.exit == UsageError
  {
    if cmd.SubmitReview? && Conflicting(cmd) then Run([], UsageError)
    else
      match remoteUrl
      case None => Run([], 1)
      case Some(url) =>
        match Providers.GetProvider(url, token)
        case Err(_) => Run([], 1)
        case Ok(_) => Dispatch(cmd, env)
  }

  /** The run only reaches the provider when no gate stops it. */
  predicate PassesGates(cmd: Command, remoteUrl: Option<string>, token: Option<string>) {
    && !(cmd.SubmitReview? && Conflicting(cmd))
    && remoteUrl.Some?
    && Providers.GetProvider(remoteUrl.value, token).Ok?
  }

  function ReviewCount(calls: seq<Call>): nat {
    if |calls| == 0 then 0
    else (if calls[|calls| - 1].ReviewCall? then 1 else 0) + ReviewCount(calls[..|calls| - 1])
  }

  // ---- startup ----

  /** A refused command line, a missing remote or a provider error ends the run with
      no provider call: exit 2 for the first, exit 1 for the others. */
  lemma StartupGates(cmd: Command, remoteUrl: Option<string>, token: Option<string>, env: Provided)
    ensures !PassesGates(cmd, remoteUrl, token) <==> Main(cmd, remoteUrl, token, env).calls == []
    ensures !PassesGates(cmd, remoteUrl, token) ==>
      Main(cmd, remoteUrl, token, env).exit == (if cmd.SubmitReview? && Conflicting(cmd) then UsageError else 1)
  {
    if PassesGates(cmd, remoteUrl, token) {
      assert |Main(cmd, remoteUrl, token, env).calls| >= 1;
    }
  }

  /** A remote that is not on GitHub always exits 1, whatever the token. */
  lemma UnsupportedRemoteExits(cmd: Command, url: string, token: Option<string>, env: Provided)
    requires !Contains(url, "github.com")
    requires !(cmd.SubmitReview? && Conflicting(cmd))
    ensures Main(cmd, Some(url), token, env) == Run([], 1)
  {
  }

  /** No two review flags together get past clap. */
  lemma FlagsExclusive(n: string, m: Option<string>, approve: bool, reject: bool, commentOnly: bool,
                       remoteUrl: Option<string>, token: Option<string>, env: Provided)
    requires (approve && reject) || (approve && commentOnly) || (reject && commentOnly)
    ensures Main(SubmitReview(n, m, approve, reject, commentOnly), remoteUrl, token, env) == Run([], UsageError)
  {
  }

  // ---- submit-review ----

  /** Routing: the one review call carries the event of the flag and the message,
      "Looks good to me." when none is given. */
  lemma ReviewRouting(n: string, m: Option<string>, approve: bool, reject: bool, commentOnly: bool,
                      remoteUrl: Option<string>, token: Option<string>, env: Provided)
    requires PassesGates(SubmitReview(n, m, approve, reject, commentOnly), remoteUrl, token)
    ensures var run := Main(SubmitReview(n, m, approve, reject, commentOnly), remoteUrl, token, env);
      && |run.calls| >= 1
      && run.calls[0] == ReviewCall(n, MessageOf(m), EventFor(approve, reject, commentOnly))
      && ReviewCount(run.calls) == 1
  {
    var run := Main(SubmitReview(n, m, approve, reject, commentOnly), remoteUrl, token, env);
    var first := [run.calls[0]];
    assert first[..0] == [];
    assert ReviewCount(first) == 1;
    if |run.calls| == 2 {
      assert run.calls[..1] == first;
    } else {
      assert run.calls == first;
    }
  }

  /** The three events: `--approve` or no flag approves, `--comment-only` comments,
      `--reject` requests changes. */
  lemma EventsByFlag()
    ensures EventFor(true, false, false) == Approve
    ensures EventFor(false, false, false) == Approve
    ensures EventFor(false, false, true) == Comment
    ensures EventFor(false, true, false) == RequestChanges
    ensures Approve != Comment && Comment != RequestChanges && RequestChanges != Approve
  {
  }

  /** The PR is closed exactly for `--reject` after a successful review, and the
      close is the last call. */
  lemma CloseOnlyAfterRejectReview(n: string, m: Option<string>, approve: bool, reject: bool, commentOnly: bool,
                                   remoteUrl: Option<string>, token: Option<string>, env: Provided)
    requires PassesGates(SubmitReview(n, m, approve, reject, commentOnly), remoteUrl, token)
    ensures var run := Main(SubmitReview(n, m, approve, reject, commentOnly), remoteUrl, token, env);
      && (CloseCall(n) in run.calls <==> reject && env.review(n, MessageOf(m), RequestChanges).Ok?)
      && (CloseCall(n) in run.calls ==> run.calls == [ReviewCall(n, MessageOf(m), RequestChanges), CloseCall(n)])
  {
  }

  /** Exit 0 exactly when every call made succeeded; a failed review is the last call. */
  lemma ReviewExitStatus(n: string, m: Option<string>, approve: bool, reject: bool, commentOnly: bool,
                         remoteUrl: Option<string>, token: Option<string>, env: Provided)
    requires PassesGates(SubmitReview(n, m, approve, reject, commentOnly), remoteUrl, token)
    ensures var run := Main(SubmitReview(n, m, approve, reject, commentOnly), remoteUrl, token, env);
      var event, msg := EventFor(approve, reject, commentOnly), MessageOf(m);
      && (run.exit == 0 || run.exit == 1)
      && (env.review(n, msg, event).Err? ==> run == Run([ReviewCall(n, msg, event)], 1))
      && (run.exit == 0 <==> env.review(n, msg, event).Ok? && (reject ==> env.close(n).Ok?))
  {
  }

  /** A reject whose review succeeds but whose close fails leaves the review
      submitted and exits 1. */
  lemma RejectPartialFailure(n: string, m: Option<string>, remoteUrl: Option<string>, token: Option<string>, env: Provided)
    requires PassesGates(SubmitReview(n, m, false, true, false), remoteUrl, token)
    requires env.review(n, MessageOf(m), RequestChanges).Ok? && env.close(n).Err?
    ensures Main(SubmitReview(n, m, false, true, false), remoteUrl, token, env)
         == Run([ReviewCall(n, MessageOf(m), RequestChanges), CloseCall(n)], 1)
  {
  }

  // ---- the other commands ----

  /** `list` and `show-details` make their one call and exit 1 exactly on its error. */
  lemma ResultCommandsExit(n: string, remoteUrl: Option<string>, token: Option<string>, env: Provided)
    requires PassesGates(List, remoteUrl, token)
    ensures Main(List, remoteUrl, token, env) == Run([ListCall], if env.list.Err? then 1 else 0)
    ensures Main(ShowDetails(n), remoteUrl, token, env)
         == Run([DetailsCall(n)], if env.details(n).Err? then 1 else 0)
  {
  }

  /** `pull` and `show-diff` return nothing to inspect: the status is whatever their
      own ending leaves, and a normal return is exit 0. */
  lemma UninspectedCommandsExit(n: string, remoteUrl: Option<string>, token: Option<string>, env: Provided)
    requires PassesGates(Pull(n), remoteUrl, token)
    ensures Main(Pull(n), remoteUrl, token, env) == Run([PullCall(n)], ExitCode(env.pull(n)))
    ensures Main(ShowDiff(n), remoteUrl, token, env) == Run([DiffCall(n)], ExitCode(env.diff(n)))
    ensures env.pull(n) == Returned ==> Main(Pull(n), remoteUrl, token, env).exit == 0
  {
  }
}
