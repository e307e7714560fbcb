/** Optional values and the monitor's error channel. */
module Outcomes {

  datatype Option<+T> = None | Some(value: T)

  /**
   * What a run ends with: a value, or the exit code of the error that ended it
   * (`errorHandler` never returns, so every error ends the run).
   */
  datatype Result<+T> = Ok(value: T) | Err(code: int)

  /** Exit code of `MetricNotFoundError`: any discovery, query or pairing failure. */
  const MetricNotFound: int := 8
}
