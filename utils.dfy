/** `utils.rs`: the debug switch, as a predicate over what `env::var("DEBUG")` yields
    (None when the variable is unset or not valid Unicode). */
module Utils {
  import opened Outcomes

  /** `is_debug_enabled` */
  predicate IsDebugEnabled(debug: Option<string>)
    ensures IsDebugEnabled(debug) ==> debug.Some? && (|debug.value| == 1 || |debug.value| == 4)
  {
    match debug
    case None => false
    case Some(v) => v == "1" || v == "true" || v == "TRUE"
  }

  /** The three spellings that switch debugging on, and nothing else does. */
  lemma DebugEnabledExactly(debug: Option<string>)
    ensures IsDebugEnabled(debug) <==> debug in {Some("1"), Some("true"), Some("TRUE")}
  {
  }

  /** Matching is case-sensitive: mixed-case spellings of "true" are off. */
  lemma DebugCaseSensitive()
    ensures !IsDebugEnabled(Some("True")) && !IsDebugEnabled(Some("tRue"))
  {
  }

  /** "0", any other value, and an unset variable are off. */
  lemma DebugOffOtherwise(other: string)
    requires other != "1" && other != "true" && other != "TRUE"
    ensures !IsDebugEnabled(Some(other))
    ensures !IsDebugEnabled(Some("0"))
    ensures !IsDebugEnabled(None)
  {
  }
}
