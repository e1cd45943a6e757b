/** Mapping of legacy numeric time-frame tokens onto the labels stored in the tables. */
module TimeFrames {
  import opened Wrappers
  import opened Errors

  /** The intended table: legacy token to stored label. */
  const LegacyTimeFrames: map<string, string> :=
    map["1" := "1m", "5" := "5m", "15" := "15m", "30" := "30m", "45" := "45m", "60" := "1H"]

  /**
   * `_normalize_time_frame` as intended: the chain of comparisons maps each legacy token
   * to its label and returns every other string unchanged. Total: it never raises.
   */
  function NormalizeTimeFrame(value: string): (r: string)
    ensures value in LegacyTimeFrames ==> r == LegacyTimeFrames[value]
    ensures value !in LegacyTimeFrames ==> r == value
  {
    if value == "1" then "1m"
    else if value == "5" then "5m"
    else if value == "15" then "15m"
    else if value == "30" then "30m"
    else if value == "45" then "45m"
    else if value == "60" then "1H"
    else value
  }

  /** No stored label is itself a legacy token, so normalising twice is normalising once. */
  lemma NormalizeIdempotent(value: string)
    ensures NormalizeTimeFrame(NormalizeTimeFrame(value)) == NormalizeTimeFrame(value)
  {
  }

  /**
   * `_normalize_time_frame` as written: its first test reads the unbound name `vahalue`,
   * so every call raises `NameError` before any comparison with `value` is made.
   */
  function NormalizeTimeFrameAsWritten(value: string): (r: Result<string, Error>)
    ensures r.Failure? && r.error.NameError?
  {
    Failure(NameError("vahalue"))
  }

  /** On every input, including `"1"` and an already-canonical `"1D"`, the two disagree. */
  lemma AsWrittenNeverNormalizes(value: string)
    ensures NormalizeTimeFrameAsWritten(value) != Success(NormalizeTimeFrame(value))
    ensures NormalizeTimeFrame("1") == "1m" && NormalizeTimeFrame("1D") == "1D"
  {
  }
}
