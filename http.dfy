/**
  The hosting service as the program sees it through reqwest: every request it sends is
  logged, and every reply is abstract (the service is a set of functions from the request
  URL to a reply, one per way the program decodes the body).
 */
module Http {
  import opened Outcomes
  import opened Json
  import opened Models

  /** A request sent to the hosting service (all carry the bearer token and
      `User-Agent: git-pr`). */
  datatype Request =
    | Get(url: string)
    | Post(url: string, payload: Json.Value)
    | Patch(url: string, payload: Json.Value)

  /** The body as decoded by serde_json into the type the call site asks for. */
  datatype Decoded<T> = Parsed(value: T) | Malformed(reason: string)

  /** What a request yields: a transport failure (sending it or reading its body),
      or a status with the body text and its decoding. */
  datatype Reply<T> =
    | Unreachable(reason: string)
    | Answered(status: int, text: string, body: Decoded<T>)

  /** `StatusCode::is_success`: 2xx. */
  predicate IsSuccess(status: int) {
    200 <= status <= 299
  }

  /** The hosting service: a reply for every request, by the type the body is read as. */
  datatype Host = Host(
    value: string -> Reply<Json.Value>,        // GET, body read as `serde_json::Value`
    openPulls: string -> Reply<seq<BasicPR>>,  // GET, body read as `Vec<BasicGitHubPR>`
    pull: string -> Reply<GitHubPR>,           // GET, body read as `GitHubPR`
    commits: string -> Reply<seq<Json.Value>>, // GET, body read as `Vec<serde_json::Value>`
    post: (string, Json.Value) -> Reply<()>,   // POST with a JSON payload
    patch: (string, Json.Value) -> Reply<()>)  // PATCH with a JSON payload
}
