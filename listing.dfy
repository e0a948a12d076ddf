/**
  `list_pull_requests` of `github.rs`: fetch the open PRs, fetch each one's details
  (dropping, with a warning, those whose detail answer is not 2xx, and giving up on a
  transport or decoding failure), sort the survivors by age and render one table row
  per PR. The clock and the text wrapper are parameters.
 */
module GitHubList {
  import opened Outcomes
  import opened Text
  import opened Models
  import opened Http
  import GitHub
  import AgeSort

  // ---- age ----

  const SecondsPerDay := 86400

  /** `(now - created_at).num_days()`: whole days, truncated toward zero. */
  function AgeDays(now: int, createdAt: int): (age: int)
    ensures now >= createdAt ==> age >= 0
    ensures now <= createdAt ==> age <= 0
  {
    var d := now - createdAt;
    if d >= 0 then d / SecondsPerDay else -((-d) / SecondsPerDay)
  }

  /** The age is the number of whole days elapsed, rounded toward zero on either side. */
  lemma AgeDaysBounds(now: int, createdAt: int)
    ensures var d, age := now - createdAt, AgeDays(now, createdAt);
      && (d >= 0 ==> age >= 0 && age * SecondsPerDay <= d < (age + 1) * SecondsPerDay)
      && (d < 0 ==> age <= 0 && (age - 1) * SecondsPerDay < d <= age * SecondsPerDay)
  {
  }

  /** A PR is "today" exactly when it was opened less than a day before (or after) now. */
  lemma AgeDaysZero(now: int, createdAt: int)
    ensures AgeDays(now, createdAt) == 0 <==> -SecondsPerDay < now - createdAt < SecondsPerDay
  {
  }

  // ---- rendering one row ----

  /** "today" for age 0, otherwise the age and "d". */
  function AgeText(age: int): (t: string)
    ensures t == "today" || (|t| >= 2 && t[|t| - 1] == 'd')
  {
    if age == 0 then "today" else IntToString(age) + "d"
  }

  /** Reading an age cell back. */
  function AgeFromText(t: string): Option<int> {
    if t == "today" then Some(0)
    else if |t| >= 1 && t[|t| - 1] == 'd' then ParseInt(t[..|t| - 1])
    else None
  }

  /** The age cell determines the age. */
  lemma AgeTextRoundTrip(age: int)
    ensures AgeFromText(AgeText(age)) == Some(age)
    ensures AgeText(age) == "today" <==> age == 0
  {
    if age != 0 {
      var t := AgeText(age);
      assert t[|t| - 1] == 'd' != "today"[4];
      assert t[..|t| - 1] == IntToString(age);
      IntToStringRoundTrip(age);
    }
  }

  function LabelNames(labels: seq<Label>): (names: seq<string>)
    ensures |names| == |labels| && forall k :: 0 <= k < |labels| ==> names[k] == labels[k].name
  {
    seq(|labels|, k requires 0 <= k < |labels| => labels[k].name)
  }

  /** "-" for no labels, otherwise the names joined by ", " in API order. */
  function LabelsText(labels: seq<Label>): (t: string)
    ensures |labels| == 1 ==> t == labels[0].name
  {
    if |labels| == 0 then "-" else Join(LabelNames(labels), ", ")
  }

  /** Every label name appears in the cell. */
  lemma LabelsTextMentionsEach(labels: seq<Label>, i: nat)
    requires i < |labels|
    ensures Contains(LabelsText(labels), labels[i].name)
  {
    JoinContainsParts(LabelNames(labels), ", ", i);
  }

  /** The cell reads "-" for no labels and for the one label named "-", and only then. */
  lemma LabelsTextDash(labels: seq<Label>)
    ensures LabelsText(labels) == "-" <==> |labels| == 0 || (|labels| == 1 && labels[0].name == "-")
  {
    if |labels| >= 2 {
      var names := LabelNames(labels);
      assert Join(names, ", ") == names[0] + ", " + Join(names[1..], ", ");
      assert |Join(names, ", ")| >= 2;
    }
  }

  /** The description before wrapping: the body, or "-" when there is none. */
  function BodyText(body: Option<string>): string {
    match body
    case Some(b) => b
    case None => "-"
  }

  /** A PR number as shown: "#" and its decimal digits. */
  function NumberText(n: nat): string {
    "#" + NatToString(n)
  }

  lemma NumberTextRoundTrip(n: nat)
    ensures var t := NumberText(n); |t| >= 2 && t[0] == '#' && ParseInt(t[1..]) == Some(n)
  {
    var t := NumberText(n);
    assert t[1..] == NatToString(n);
    assert IsDigits(t[1..]) && t[1] != '-';
    NatToStringRoundTrip(n);
  }

  /** The row of one (PR, age) pair; `wrap` is the 60-column `textwrap::fill`. */
  function Display(x: AgedPR, wrap: string -> string): (row: DisplayPR)
    ensures AgeFromText(row.age) == Some(x.ageDays)
    ensures |row.number| >= 2 && row.number[0] == '#' && ParseInt(row.number[1..]) == Some(x.pr.number)
    ensures ParseInt(row.commits) == Some(x.pr.commits) && ParseInt(row.files) == Some(x.pr.changedFiles)
    ensures x.pr.body.None? ==> row.description == wrap("-")
  {
    AgeTextRoundTrip(x.ageDays);
    NumberTextRoundTrip(x.pr.number);
    IntToStringRoundTrip(x.pr.commits);
    IntToStringRoundTrip(x.pr.changedFiles);
    DisplayPR(
      NumberText(x.pr.number),
      x.pr.title,
      x.pr.user.login,
      AgeText(x.ageDays),
      NatToString(x.pr.commits),
      NatToString(x.pr.changedFiles),
      LabelsText(x.pr.labels),
      wrap(BodyText(x.pr.body)))
  }

  function DisplayAll(s: seq<AgedPR>, wrap: string -> string): (rows: seq<DisplayPR>)
    ensures |rows| == |s| && forall k :: 0 <= k < |s| ==> rows[k] == Display(s[k], wrap)
  {
    seq(|s|, k requires 0 <= k < |s| => Display(s[k], wrap))
  }

  // ---- fetching the details ----

  /** The warning printed for a PR whose detail answer is not 2xx. */
  datatype Skipped = Skipped(number: nat, text: string)

  /** What the detail fetch of one summary leads to. */
  datatype Fetched = Fatal(error: Error) | Skip(warning: Skipped) | Keep(aged: AgedPR)

  function DetailUrl(owner: string, repo: string, b: BasicPR): string {
    GitHub.PullUrl(owner, repo, NatToString(b.number))
  }

  /** The k-th summary: `send()?`/`text()?` failures and undecodable 2xx bodies are
      fatal, other statuses are skipped, the rest is kept with its age by the clock
      reading `clock(k)`. */
  function Classify(owner: string, repo: string, host: Host, clock: nat -> int, basics: seq<BasicPR>, k: nat)
    : (c: Fetched)
    requires k < |basics|
    ensures var r := host.pull(DetailUrl(owner, repo, basics[k]));
      && (c.Skip? <==> r.Answered? && !IsSuccess(r.status))
      && (c.Skip? ==> c.warning == Skipped(basics[k].number, r.text))
      && (c.Keep? <==> r.Answered? && IsSuccess(r.status) && r.body.Parsed?)
      && (c.Keep? ==> c.aged.pr == r.body.value && c.aged.ageDays == AgeDays(clock(k), c.aged.pr.createdAt))
  {
    var b := basics[k];
    match host.pull(DetailUrl(owner, repo, b))
    case Unreachable(e) => Fatal(Transport(e))
    case Answered(status, text, body) =>
      if !IsSuccess(status) then Skip(Skipped(b.number, text))
      else
        match body
        case Malformed(e) => Fatal(Undecodable(e))
        case Parsed(pr) => Keep(AgedPR(pr, AgeDays(clock(k), pr.createdAt)))
  }

  predicate NoFatalBefore(owner: string, repo: string, host: Host, clock: nat -> int, basics: seq<BasicPR>, n: nat)
    requires n <= |basics|
  {
    forall i :: 0 <= i < n ==> !Classify(owner, repo, host, clock, basics, i).Fatal?
  }

  /** The kept pairs among the first n summaries, in order. */
  function Survivors(owner: string, repo: string, host: Host, clock: nat -> int, basics: seq<BasicPR>, n: nat)
    : seq<AgedPR>
    requires n <= |basics|
  {
    if n == 0 then []
    else
      var c := Classify(owner, repo, host, clock, basics, n - 1);
      Survivors(owner, repo, host, clock, basics, n - 1) + (if c.Keep? then [c.aged] else [])
  }

  /** The warnings among the first n summaries, in order. */
  function Warnings(owner: string, repo: string, host: Host, clock: nat -> int, basics: seq<BasicPR>, n: nat)
    : seq<Skipped>
    requires n <= |basics|
  {
    if n == 0 then []
    else
      var c := Classify(owner, repo, host, clock, basics, n - 1);
      Warnings(owner, repo, host, clock, basics, n - 1) + (if c.Skip? then [c.warning] else [])
  }

  /** The state of the loop: the vector of kept pairs, the warnings, the detail
      requests sent, and the error it stopped on. */
  datatype Gathered = Gathered(kept: seq<AgedPR>, warnings: seq<Skipped>, requests: seq<Request>, failure: Option<Error>)

  /** The loop over the first n summaries. */
  function Gather(owner: string, repo: string, host: Host, clock: nat -> int, basics: seq<BasicPR>, n: nat)
    : (g: Gathered)
    requires n <= |basics|
    ensures |g.kept| + |g.warnings| <= |g.requests| <= n
    decreases n
  {
    if n == 0 then Gathered([], [], [], None)
    else
      var g := Gather(owner, repo, host, clock, basics, n - 1);
      if g.failure.Some? then g
      else
        var requests := g.requests + [Get(DetailUrl(owner, repo, basics[n - 1]))];
        match Classify(owner, repo, host, clock, basics, n - 1)
        case Fatal(e) => Gathered(g.kept, g.warnings, requests, Some(e))
        case Skip(w) => Gathered(g.kept, g.warnings + [w], requests, None)
        case Keep(a) => Gathered(g.kept + [a], g.warnings, requests, None)
  }

  /** The loop sends the detail requests of the summaries it reaches, in order. */
  lemma {:induction false} GatherRequests(owner: string, repo: string, host: Host, clock: nat -> int, basics: seq<BasicPR>, n: nat)
    requires n <= |basics|
    ensures var g := Gather(owner, repo, host, clock, basics, n);
      forall i :: 0 <= i < |g.requests| ==> g.requests[i] == Get(DetailUrl(owner, repo, basics[i]))
    decreases n
  {
    if n > 0 {
      GatherRequests(owner, repo, host, clock, basics, n - 1);
      GatherRequestCount(owner, repo, host, clock, basics, n - 1);
      var g := Gather(owner, repo, host, clock, basics, n - 1);
      if g.failure.None? {
        var r := Get(DetailUrl(owner, repo, basics[n - 1]));
        var requests := Gather(owner, repo, host, clock, basics, n).requests;
        assert requests == g.requests + [r];
        forall i | 0 <= i < |requests| ensures requests[i] == Get(DetailUrl(owner, repo, basics[i])) {
          if i < |g.requests| {
            assert requests[i] == g.requests[i];
          }
        }
      }
    }
  }

  lemma NoFatalStep(owner: string, repo: string, host: Host, clock: nat -> int, basics: seq<BasicPR>, n: nat)
    requires 0 < n <= |basics|
    ensures NoFatalBefore(owner, repo, host, clock, basics, n)
        <==> NoFatalBefore(owner, repo, host, clock, basics, n - 1)
             && !Classify(owner, repo, host, clock, basics, n - 1).Fatal?
  {
  }

  /** The loop ends without an error exactly when no summary is fatal. */
  lemma {:induction false} GatherFailsIffFatal(owner: string, repo: string, host: Host, clock: nat -> int, basics: seq<BasicPR>, n: nat)
    requires n <= |basics|
    ensures Gather(owner, repo, host, clock, basics, n).failure.None?
        <==> NoFatalBefore(owner, repo, host, clock, basics, n)
    decreases n
  {
    if n > 0 {
      GatherFailsIffFatal(owner, repo, host, clock, basics, n - 1);
      NoFatalStep(owner, repo, host, clock, basics, n);
    }
  }

  /** A loop that has not stopped has sent one request per summary. */
  lemma {:induction false} GatherRequestCount(owner: string, repo: string, host: Host, clock: nat -> int, basics: seq<BasicPR>, n: nat)
    requires n <= |basics|
    ensures var g := Gather(owner, repo, host, clock, basics, n);
      g.failure.None? ==> |g.requests| == n
    decreases n
  {
    if n > 0 {
      GatherRequestCount(owner, repo, host, clock, basics, n - 1);
    }
  }

  /** A loop that ends without an error has kept the survivors and the warnings in
      order. */
  lemma {:induction false} GatherKeptWhenComplete(owner: string, repo: string, host: Host, clock: nat -> int, basics: seq<BasicPR>, n: nat)
    requires n <= |basics|
    ensures var g := Gather(owner, repo, host, clock, basics, n);
      g.failure.None? ==>
        && g.kept == Survivors(owner, repo, host, clock, basics, n)
        && g.warnings == Warnings(owner, repo, host, clock, basics, n)
    decreases n
  {
    if n > 0 {
      GatherKeptWhenComplete(owner, repo, host, clock, basics, n - 1);
    }
  }

  /** Without a fatal summary the loop runs to the end, keeping the survivors and the
      warnings in order; with one it stops. */
  lemma GatherCompletes(owner: string, repo: string, host: Host, clock: nat -> int, basics: seq<BasicPR>, n: nat)
    requires n <= |basics|
    ensures var g := Gather(owner, repo, host, clock, basics, n);
      && (g.failure.None? <==> NoFatalBefore(owner, repo, host, clock, basics, n))
      && (g.failure.None? ==>
            && |g.requests| == n
            && g.kept == Survivors(owner, repo, host, clock, basics, n)
            && g.warnings == Warnings(owner, repo, host, clock, basics, n))
  {
    GatherFailsIffFatal(owner, repo, host, clock, basics, n);
    GatherRequestCount(owner, repo, host, clock, basics, n);
    GatherKeptWhenComplete(owner, repo, host, clock, basics, n);
  }

  /** A loop that stopped did so on its last request, the first fatal summary. */
  lemma {:induction false} GatherStopsOnFirstFatal(owner: string, repo: string, host: Host, clock: nat -> int, basics: seq<BasicPR>, n: nat)
    requires n <= |basics|
    requires Gather(owner, repo, host, clock, basics, n).failure.Some?
    ensures var g := Gather(owner, repo, host, clock, basics, n);
      && |g.requests| >= 1
      && NoFatalBefore(owner, repo, host, clock, basics, |g.requests| - 1)
      && Classify(owner, repo, host, clock, basics, |g.requests| - 1) == Fatal(g.failure.value)
    decreases n
  {
    assert n > 0;
    var g := Gather(owner, repo, host, clock, basics, n - 1);
    if g.failure.Some? {
      GatherStopsOnFirstFatal(owner, repo, host, clock, basics, n - 1);
      assert Gather(owner, repo, host, clock, basics, n) == g;
    } else {
      GatherCompletes(owner, repo, host, clock, basics, n - 1);
      var c := Classify(owner, repo, host, clock, basics, n - 1);
      assert c.Fatal?;
      assert Gather(owner, repo, host, clock, basics, n)
          == Gathered(g.kept, g.warnings, g.requests + [Get(DetailUrl(owner, repo, basics[n - 1]))], Some(c.error));
    }
  }

  /** Once the loop has stopped on an error, later summaries change nothing. */
  lemma {:induction false} GatherStops(owner: string, repo: string, host: Host, clock: nat -> int, basics: seq<BasicPR>, n: nat, m: nat)
    requires n <= m <= |basics|
    requires Gather(owner, repo, host, clock, basics, n).failure.Some?
    ensures Gather(owner, repo, host, clock, basics, m) == Gather(owner, repo, host, clock, basics, n)
    decreases m
  {
    if m > n {
      GatherStops(owner, repo, host, clock, basics, n, m - 1);
      var g := Gather(owner, repo, host, clock, basics, m - 1);
      assert g.failure.Some?;
      assert Gather(owner, repo, host, clock, basics, m) == g;
    }
  }

  /** The first fatal summary is the last one fetched, and its error is the loop's. */
  lemma GatherAbortsOnFatal(owner: string, repo: string, host: Host, clock: nat -> int, basics: seq<BasicPR>, f: nat)
    requires f < |basics| && NoFatalBefore(owner, repo, host, clock, basics, f)
    requires Classify(owner, repo, host, clock, basics, f).Fatal?
    ensures var g := Gather(owner, repo, host, clock, basics, |basics|);
      && g.failure == Some(Classify(owner, repo, host, clock, basics, f).error)
      && |g.requests| == f + 1
      && g.requests[f] == Get(DetailUrl(owner, repo, basics[f]))
  {
    GatherCompletes(owner, repo, host, clock, basics, f);
    var g := Gather(owner, repo, host, clock, basics, f);
    var c := Classify(owner, repo, host, clock, basics, f);
    assert Gather(owner, repo, host, clock, basics, f + 1)
        == Gathered(g.kept, g.warnings, g.requests + [Get(DetailUrl(owner, repo, basics[f]))], Some(c.error));
    GatherStops(owner, repo, host, clock, basics, f + 1, |basics|);
  }

  // ---- the listing ----

  /** What the command shows: the notice for an empty list, or the table. */
  datatype ListOutput = NoOpenPullRequests | Table(rows: seq<DisplayPR>)

  /** The outcome, every request sent, and the warnings printed on the way. */
  datatype Listing = Listing(result: Result<ListOutput>, requests: seq<Request>, warnings: seq<Skipped>)

  /** `list_pull_requests` as a whole. */
  function ListingOf(p: GitHubProvider, host: Host, clock: nat -> int, wrap: string -> string): (l: Listing)
    ensures l.requests == [] <==> GitHub.InferRepoDetails(p.remoteUrl).None?
    ensures l.result.Ok? && l.result.value.Table? ==> |l.result.value.rows| + |l.warnings| < |l.requests|
  {
    match GitHub.InferRepoDetails(p.remoteUrl)
    case None => Listing(Err(GitHub.NoRepoDetails), [], [])
    case Some((owner, repo)) =>
      var url := GitHub.OpenPullsUrl(owner, repo);
      match host.openPulls(url)
      case Unreachable(e) => Listing(Err(Transport(e)), [Get(url)], [])
      case Answered(status, text, body) =>
        if !IsSuccess(status) then Listing(Err(Message("Failed to list PRs: " + text)), [Get(url)], [])
        else
          match body
          case Malformed(e) => Listing(Err(Undecodable(e)), [Get(url)], [])
          case Parsed(basics) =>
            if |basics| == 0 then Listing(Ok(NoOpenPullRequests), [Get(url)], [])
            else
              var g := Gather(owner, repo, host, clock, basics, |basics|);
              match g.failure
              case Some(e) => Listing(Err(e), [Get(url)] + g.requests, g.warnings)
              case None => Listing(Ok(Table(DisplayAll(AgeSort.SortByAge(g.kept), wrap))), [Get(url)] + g.requests, g.warnings)
  }

  /** The `for basic_pr in basic_prs` loop: push the kept pairs and stop on the first
      fatal summary. */
  method FetchDetails(owner: string, repo: string, host: Host, clock: nat -> int, basics: seq<BasicPR>)
    returns (g: Gathered)
    ensures g == Gather(owner, repo, host, clock, basics, |basics|)
  {
    var detailed: seq<AgedPR> := [];
    var warnings: seq<Skipped> := [];
    var sent: seq<Request> := [];
    var i := 0;
    while i < |basics|
      invariant 0 <= i <= |basics|
      invariant Gather(owner, repo, host, clock, basics, i) == Gathered(detailed, warnings, sent, None)
    {
      var b := basics[i];
      var detailUrl := DetailUrl(owner, repo, b);
      sent := sent + [Get(detailUrl)];
      var detail := host.pull(detailUrl);
      if detail.Unreachable? {
        GatherStops(owner, repo, host, clock, basics, i + 1, |basics|);
        return Gathered(detailed, warnings, sent, Some(Transport(detail.reason)));
      }
      if !IsSuccess(detail.status) {
        warnings := warnings + [Skipped(b.number, detail.text)];
        i := i + 1;
        continue;
      }
      if detail.body.Malformed? {
        GatherStops(owner, repo, host, clock, basics, i + 1, |basics|);
        return Gathered(detailed, warnings, sent, Some(Undecodable(detail.body.reason)));
      }
      var pr := detail.body.value;
      detailed := detailed + [AgedPR(pr, AgeDays(clock(i), pr.createdAt))];
      i := i + 1;
    }
    g := Gathered(detailed, warnings, sent, None);
  }

  /** The imperative form: push the kept pairs in a loop, sort them in place, map
      them to rows. */
  method ListPullRequests(p: GitHubProvider, host: Host, clock: nat -> int, wrap: string -> string)
    returns (listing: Listing)
    ensures listing == ListingOf(p, host, clock, wrap)
  {
    var details := GitHub.InferRepoDetails(p.remoteUrl);
    if details.None? {
      return Listing(Err(GitHub.NoRepoDetails), [], []);
    }
    var (owner, repo) := details.value;
    var url := GitHub.OpenPullsUrl(owner, repo);
    var reply := host.openPulls(url);
    if reply.Unreachable? {
      return Listing(Err(Transport(reply.reason)), [Get(url)], []);
    }
    if !IsSuccess(reply.status) {
      return Listing(Err(Message("Failed to list PRs: " + reply.text)), [Get(url)], []);
    }
    if reply.body.Malformed? {
      return Listing(Err(Undecodable(reply.body.reason)), [Get(url)], []);
    }
    var basics := reply.body.value;
    if |basics| == 0 {
      return Listing(Ok(NoOpenPullRequests), [Get(url)], []);
    }

    var g := FetchDetails(owner, repo, host, clock, basics);
    if g.failure.Some? {
      return Listing(Err(g.failure.value), [Get(url)] + g.requests, g.warnings);
    }
    var detailed := g.kept;
    var buffer := new AgedPR[|detailed|];
    forall k | 0 <= k < |detailed| {
      buffer[k] := detailed[k];
    }
    assert buffer[..] == detailed;
    AgeSort.SortByAgeInPlace(buffer);
    listing := Listing(Ok(Table(DisplayAll(buffer[..], wrap))), [Get(url)] + g.requests, g.warnings);
  }

  // ---- what the listing promises ----

  /** The rows run from the youngest PR to the oldest (ascending age). */
  lemma ListingRowsAscending(p: GitHubProvider, host: Host, clock: nat -> int, wrap: string -> string)
    requires ListingOf(p, host, clock, wrap).result.Ok?
    requires ListingOf(p, host, clock, wrap).result.value.Table?
    ensures var rows := ListingOf(p, host, clock, wrap).result.value.rows;
      forall i, j :: 0 <= i < j < |rows| ==>
        AgeFromText(rows[i].age).Some? && AgeFromText(rows[j].age).Some?
        && AgeFromText(rows[i].age).value <= AgeFromText(rows[j].age).value
  {
    var (owner, repo) := GitHub.InferRepoDetails(p.remoteUrl).value;
    var basics := host.openPulls(GitHub.OpenPullsUrl(owner, repo)).body.value;
    var g := Gather(owner, repo, host, clock, basics, |basics|);
    AgeSort.SortByAgeSorted(g.kept);
  }

  /** The table shows exactly the summaries whose details came back 2xx and decodable,
      sorted by age, each one row; nothing else happened but the warnings. */
  lemma ListingTableOfSurvivors(p: GitHubProvider, host: Host, clock: nat -> int, wrap: string -> string,
                                owner: string, repo: string, basics: seq<BasicPR>)
    requires GitHub.InferRepoDetails(p.remoteUrl) == Some((owner, repo))
    requires var r := host.openPulls(GitHub.OpenPullsUrl(owner, repo));
      r.Answered? && IsSuccess(r.status) && r.body == Parsed(basics) && |basics| > 0
    requires NoFatalBefore(owner, repo, host, clock, basics, |basics|)
    ensures var l := ListingOf(p, host, clock, wrap);
      var kept := Survivors(owner, repo, host, clock, basics, |basics|);
      && l.result == Ok(Table(DisplayAll(AgeSort.SortByAge(kept), wrap)))
      && multiset(AgeSort.SortByAge(kept)) == multiset(kept)
      && l.warnings == Warnings(owner, repo, host, clock, basics, |basics|)
      && |l.requests| == 1 + |basics|
  {
    GatherCompletes(owner, repo, host, clock, basics, |basics|);
    AgeSort.SortByAgePermutes(Survivors(owner, repo, host, clock, basics, |basics|));
  }

  /** The first summary whose detail fetch is fatal ends the listing with its error,
      and no later summary is fetched. */
  lemma ListingAbortsOnFatal(p: GitHubProvider, host: Host, clock: nat -> int, wrap: string -> string,
                             owner: string, repo: string, basics: seq<BasicPR>, f: nat)
    requires GitHub.InferRepoDetails(p.remoteUrl) == Some((owner, repo))
    requires var r := host.openPulls(GitHub.OpenPullsUrl(owner, repo));
      r.Answered? && IsSuccess(r.status) && r.body == Parsed(basics)
    requires f < |basics| && NoFatalBefore(owner, repo, host, clock, basics, f)
    requires Classify(owner, repo, host, clock, basics, f).Fatal?
    ensures var l := ListingOf(p, host, clock, wrap);
      && l.result == Err(Classify(owner, repo, host, clock, basics, f).error)
      && |l.requests| == f + 2
      && l.requests[f + 1] == Get(DetailUrl(owner, repo, basics[f]))
  {
    GatherAbortsOnFatal(owner, repo, host, clock, basics, f);
  }

  /** An empty list ends with the notice, before any detail request. */
  lemma ListingEmpty(p: GitHubProvider, host: Host, clock: nat -> int, wrap: string -> string, owner: string, repo: string)
    requires GitHub.InferRepoDetails(p.remoteUrl) == Some((owner, repo))
    requires var r := host.openPulls(GitHub.OpenPullsUrl(owner, repo));
      r.Answered? && IsSuccess(r.status) && r.body == Parsed([])
    ensures ListingOf(p, host, clock, wrap)
         == Listing(Ok(NoOpenPullRequests), [Get(GitHub.OpenPullsUrl(owner, repo))], [])
  {
  }

  /** A non-2xx list answer is an error carrying the body text, whatever the body is. */
  lemma ListingRejectedList(p: GitHubProvider, host: Host, clock: nat -> int, wrap: string -> string, owner: string, repo: string)
    requires GitHub.InferRepoDetails(p.remoteUrl) == Some((owner, repo))
    requires var r := host.openPulls(GitHub.OpenPullsUrl(owner, repo));
      r.Answered? && !IsSuccess(r.status)
    ensures ListingOf(p, host, clock, wrap).result
         == Err(Message("Failed to list PRs: " + host.openPulls(GitHub.OpenPullsUrl(owner, repo)).text))
    ensures |ListingOf(p, host, clock, wrap).requests| == 1
  {
  }
}
