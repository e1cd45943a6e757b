/** The identifiers a repository is built from, sanitised once, at construction. */
module RepositoryConfig {
  import opened Wrappers
  import opened Errors
  import opened Identifiers

  datatype Config = Config(table: string, symbolColumn: string, timeFrameColumn: string,
                           timestampColumn: string, exchangeColumn: Option<string>)

  /** Every name that will be interpolated into SQL is an allowed identifier. */
  predicate Sanitized(c: Config) {
    && IsIdentifier(c.table) && IsIdentifier(c.symbolColumn)
    && IsIdentifier(c.timeFrameColumn) && IsIdentifier(c.timestampColumn)
    && (c.exchangeColumn.Some? ==> IsIdentifier(c.exchangeColumn.value))
  }

  type SanitizedConfig = c: Config | Sanitized(c) witness Config("t", "s", "f", "ts", None)

  /** `exchange_column`, when truthy: a missing or empty exchange column disables exchange filtering. */
  function ExchangeCandidate(exchangeColumn: Option<string>): Option<string> {
    if exchangeColumn.Some? && exchangeColumn.value != "" then exchangeColumn else None
  }

  /**
   * The body the four repository constructors share (they differ only in the default
   * table name): each name is sanitised in the source's order, table first, and the
   * first one rejected is the error raised. The symbol, time-frame and timestamp
   * columns default to `symbol`, `time_frame` and `timestamp`.
   */
  function Configure(defaultTable: string, table: string, symbolColumn: string, timeFrameColumn: string,
                     timestampColumn: string, exchangeColumn: Option<string>): (r: Result<SanitizedConfig, Error>)
    ensures var t, s, f, ts := Candidate(table, defaultTable), Candidate(symbolColumn, "symbol"),
                               Candidate(timeFrameColumn, "time_frame"), Candidate(timestampColumn, "timestamp");
      var ex := ExchangeCandidate(exchangeColumn);
      && (r.Success? <==>
            IsIdentifier(t) && IsIdentifier(s) && IsIdentifier(f) && IsIdentifier(ts)
            && (ex.Some? ==> IsIdentifier(ex.value)))
      && (r.Success? ==> r.value == Config(t, s, f, ts, ex))
      && (!IsIdentifier(t) ==> r == Failure(InvalidIdentifier(t)))
      && (IsIdentifier(t) && !IsIdentifier(s) ==> r == Failure(InvalidIdentifier(s)))
      && (IsIdentifier(t) && IsIdentifier(s) && !IsIdentifier(f) ==> r == Failure(InvalidIdentifier(f)))
      && (IsIdentifier(t) && IsIdentifier(s) && IsIdentifier(f) && !IsIdentifier(ts) ==>
            r == Failure(InvalidIdentifier(ts)))
      && (IsIdentifier(t) && IsIdentifier(s) && IsIdentifier(f) && IsIdentifier(ts) && ex.Some?
          && !IsIdentifier(ex.value)
          ==> r == Failure(InvalidIdentifier(ex.value)))
  {
    var t :- SanitizeIdentifier(table, defaultTable);
    var s :- SanitizeIdentifier(symbolColumn, "symbol");
    var f :- SanitizeIdentifier(timeFrameColumn, "time_frame");
    var ts :- SanitizeIdentifier(timestampColumn, "timestamp");
    var ex :- if exchangeColumn.Some? && exchangeColumn.value != "" then
                match SanitizeIdentifier(exchangeColumn.value, "exchange")
                case Success(e) => Success(Some(e))
                case Failure(err) => Failure(err)
              else Success(None);
    Success(Config(t, s, f, ts, ex))
  }
}
