# tradeinternal-mcp: query construction and response normalisation

`tradeinternal-mcp` serves market data from four MySQL tables. The tables hold TradingView
candles, volume footprints, cumulative-volume-delta (CVD) candles and EMA rows. It offers
them as MCP tools and as HTTP routes. This project models the layer between those endpoints
and the database, and proves properties of that model.

The layer has two parts:

- **The repositories**, in `repository.py`:
  - Each repository is built once from table and column names. Every name must pass the
    identifier sanitizer.
  - Each `fetch_*` call clamps the row limit. It normalises legacy time-frame tokens.
  - It builds a statement from SQL fragments and a parallel list of bound parameters, then
    sends it.
  - It reverses the newest-first answer in place and serialises every row. Datetimes and
    dates become ISO text and decimals become floats.
  - The footprint repository also decodes its `levels` column: bytes become UTF-8 text,
    and text becomes parsed JSON.
- **The envelope builders**, in `server.py`:
  - Each envelope reports the first and last row's `timestamp` in
    `YYYY-MM-DD HH:MM:SS` form, the row count and the rows.
  - The EMA envelope also gives every row four more keys: `_20_ema`, `_50_ema`,
    `_100_ema` and `_200_ema`. Each holds the row's `20_ema`, `50_ema`, `100_ema` or
    `200_ema` value, or null when the row has no such column.

How the model is built:

- **Values and rows.** A row is a Python `dict`. It is modelled as a sequence of fields with
  distinct keys, in insertion order.
  - `Values.Set` gives the meaning of `d[k] = v`: an existing key keeps its place, and a
    new key is appended.
  - `Values.Get` gives the meaning of lookup.
- **The database** is a `Gateway.DatabaseClient`. Its answer to a statement is a fixed
  function of the SQL text and the parameters. It logs every statement it is asked to
  run, so "raises before anything is sent" can be stated.
- **Library functions.** The model takes three given partial functions:
  - UTF-8 decoding and `json.loads`, passed to the footprint fetch;
  - `datetime.fromisoformat`, passed to the envelope builders.

  `isoformat()` and `strftime` are written out. `IsoTime.ParseIso` is a reference parser
  for the canonical ISO forms. The lemmas that follow values from the database to the
  envelope hold for any `fromisoformat` that agrees with it on those forms
  (`Envelopes.ExtendsParseIso`).
- **Same shape as the source.**
  - The statement building, the in-place reversal, row serialisation, the footprint loop
    and the EMA loop are methods, with a loop wherever the source has one.
  - Each method is proved equal to a specification function. The properties are proved
    about those functions.
  - The repositories are classes. Their `Create` methods run the constructor's checks, and
    their fetch methods modify only the gateway's log.

The candle SELECT is modelled as the code has it:

- It names the literal columns `time_frame, symbol`.
- It selects the configured timestamp column without an alias.
- A candle repository with a non-default timestamp column therefore returns rows without
  a `timestamp` key. The envelope builder then raises `KeyError` (`Envelopes.RowsResponse`).

Two defects in the code are recorded under Findings, each both as written and as intended.
The rest of the model uses the intended versions:

- **The normaliser.** `_normalize_time_frame` evaluates the unbound name `vahalue` first
  on every call, so every call raises `NameError`.
- **The sanitizer.** Its `$` anchor admits an identifier followed by one newline.

## Model

| member | source | states |
|---|---|---|
| Identifiers.SanitizeIdentifier | tradeinternal_mcp_server/repository.py:17-21 | The candidate is `value`, or `default` when `value` is empty. The call succeeds exactly when the candidate is non-empty and every character is in `[A-Za-z0-9_]`, and it returns the candidate. Otherwise it raises with the candidate. |
| Identifiers.IdentifierRun | tradeinternal_mcp_server/repository.py:14 | The regex engine's run of `[A-Za-z0-9_]+` is the longest leading run of identifier characters. |
| Identifiers.PatternMatchesIsIdentifier | tradeinternal_mcp_server/repository.py:14-19 | A pattern anchored at the true end of the string accepts exactly the allowed identifiers. |
| Identifiers.SanitizeIdentifierAsWritten | tradeinternal_mcp_server/repository.py:14-21 | The sanitizer with Python's `$`, which also matches before a final newline. It succeeds exactly when that pattern matches. |
| Identifiers.AsWrittenAdmitsTrailingNewline | tradeinternal_mcp_server/repository.py:14 | The written pattern accepts exactly the allowed identifiers plus an allowed identifier followed by one `\n`. |
| Identifiers.TrailingNewlineCounterexample | tradeinternal_mcp_server/repository.py:14-21 | `"symbol\n"` passes the written sanitizer and is rejected by the intended one. |
| TimeFrames.NormalizeTimeFrame | tradeinternal_mcp_server/repository.py:24-40 | The six legacy tokens map to `1m`, `5m`, `15m`, `30m`, `45m` and `1H`. Every other string is returned unchanged. |
| TimeFrames.NormalizeIdempotent | tradeinternal_mcp_server/repository.py:24-40 | Normalising twice is the same as normalising once. |
| TimeFrames.NormalizeTimeFrameAsWritten | tradeinternal_mcp_server/repository.py:27 | The function as written raises `NameError` on every input. |
| TimeFrames.AsWrittenNeverNormalizes | tradeinternal_mcp_server/repository.py:27-40 | On every input the written function differs from the intended table, including `"1"` and the canonical `"1D"`. |
| IsoTime.ParseIso | tradeinternal_mcp_server/server.py:290 | A reference parser for the canonical `fromisoformat` forms. It yields only datetimes the `datetime` constructor admits. |
| IsoTime.IsoFormatRoundTrip | tradeinternal_mcp_server/repository.py:46-47 | Parsing `datetime.isoformat()` gives back the same datetime, microseconds included. |
| IsoTime.DateIsoFormatRoundTrip | tradeinternal_mcp_server/repository.py:48-49 | Parsing `date.isoformat()` gives midnight of that date. |
| IsoTime.StrftimeParses | tradeinternal_mcp_server/server.py:293 | The `%Y-%m-%d %H:%M:%S` display form parses back to the same second. |
| Values.Get | tradeinternal_mcp_server/server.py:297 | A lookup finds a value exactly when the key is in the row. |
| Values.Set | tradeinternal_mcp_server/repository.py:243-248 | After `d[k] = v`, `k` holds `v` and every other key keeps its value. An existing key keeps its position; a new key is appended at the end. |
| Values.SetOverwrite | tradeinternal_mcp_server/repository.py:243-248 | Assigning a key twice, whether or not it was present before, leaves the row as a single assignment of the second value. |
| Serializer.SerializeValue | tradeinternal_mcp_server/repository.py:45-53 | A datetime or date becomes its ISO text and a Decimal becomes a float. Every other value, None included, is unchanged. No datetime, date or Decimal survives. |
| Serializer.SerializeValueIdempotent | tradeinternal_mcp_server/repository.py:43-54 | Serialising a serialised value changes nothing. |
| Serializer.SerializedRow | tradeinternal_mcp_server/repository.py:43-54 | The result has the same keys in the same order, and each key holds its serialised value. |
| Serializer.SerializeRow | tradeinternal_mcp_server/repository.py:43-54 | The loop that fills a fresh dict one key at a time computes exactly `SerializedRow`. |
| Serializer.DecodeUtf8Step | tradeinternal_mcp_server/repository.py:240-245 | Bytes that decode become that text. Anything else, including bytes that do not decode, is unchanged. |
| Serializer.ParseJsonStep | tradeinternal_mcp_server/repository.py:246-251 | Text that parses becomes the parsed value. Anything else, including text that does not parse, is unchanged. |
| Serializer.DecodeLevels | tradeinternal_mcp_server/repository.py:236-254 | The keys are unchanged. Every field other than `levels` is unchanged. A row without `levels` is untouched. `levels` becomes the result of both steps, and the chain never fails. |
| Serializer.DecodeLevelsStep | tradeinternal_mcp_server/repository.py:239-251 | The two guarded assignments of the footprint loop compute exactly `DecodeLevels`. |
| Serializer.LevelsOutcomes | tradeinternal_mcp_server/repository.py:239-251 | The case table of the chain. Decodable bytes of JSON give the parsed value. Decodable bytes of non-JSON give the text. Undecodable bytes are kept. JSON text gives the parsed value. Other text and other values are kept. |
| RepositoryConfig.Configure | tradeinternal_mcp_server/repository.py:60-76 | The constructor succeeds exactly when the table, symbol, time-frame, timestamp and (when truthy) exchange names all sanitise, and it stores those names. The first rejected name, in that order and exchange last, is the error. An empty or missing exchange column disables exchange filtering. |
| QueryBuilder.ClampLimit | tradeinternal_mcp_server/repository.py:102 | The effective limit lies in [1, 1000] and equals `limit` when `limit` is already in range. Below the range it is 1; above, 1000. |
| QueryBuilder.QueryFor | tradeinternal_mcp_server/repository.py:105-131 | The statement fails exactly when an exchange filter is requested and no exchange column is configured, and the error is the exchange-filter error. |
| QueryBuilder.ParamsInOrder | tradeinternal_mcp_server/repository.py:112-129 | The parameters are, in order: the symbol, the normalised time frame, then exchange, start and end (each only when given), then the clamped limit. |
| QueryBuilder.PlaceholdersMatchParams | tradeinternal_mcp_server/repository.py:105-131 | The joined SQL has exactly as many `%s` placeholders as there are bound parameters. |
| QueryBuilder.SqlIndependentOfValues | tradeinternal_mcp_server/repository.py:105-131 | The SQL text depends only on which optional filters are present, never on caller-supplied values. |
| QueryBuilder.FilterClausesBindOne | tradeinternal_mcp_server/repository.py:114-126 | Each optional condition fragment binds exactly one placeholder. |
| QueryBuilder.WhereClauseBindsTwo | tradeinternal_mcp_server/repository.py:107-110 | The WHERE fragment binds exactly two placeholders. |
| QueryBuilder.BuildQuery | tradeinternal_mcp_server/repository.py:102-131 | Clamping, normalising and the appends to `sql_parts` and `params` build exactly `QueryFor`, raising before anything is sent. |
| Gateway.DatabaseClient.FetchAll | tradeinternal_mcp_server/database.py:39-44 | The statement is logged as sent. The result is a fresh list holding the database's rows in order, or the driver's error. |
| SelectLists.Present | tradeinternal_mcp_server/repository.py:320 | Filtering out `None` keeps exactly the present column strings and never lengthens the list. |
| SelectLists.PresentAround | tradeinternal_mcp_server/repository.py:305-320 | Filtering a list with one optional entry keeps the fixed entries around it, in order. |
| SelectLists.CvdColumnsShape | tradeinternal_mcp_server/repository.py:305-320 | The CVD SELECT list is `cvd_id`, then the exchange alias exactly when configured, then the fixed columns in order. |
| SelectLists.EmaColumnsShape | tradeinternal_mcp_server/repository.py:401-413 | The EMA SELECT list is `e_id`, then the exchange alias exactly when configured, then the fixed columns in order. |
| SelectLists.FootprintColumns | tradeinternal_mcp_server/repository.py:185-205 | The footprint list has its 13 fixed columns, plus one more exactly when an exchange column is configured. |
| SelectLists.FootprintColumnsShape | tradeinternal_mcp_server/repository.py:185-205 | The footprint list is the 13 columns of the unconfigured list, with the exchange alias inserted after the first four exactly when an exchange column is configured. |
| SelectLists.ExchangeSelectedIffConfigured | tradeinternal_mcp_server/repository.py:191-192 | A configured exchange column is selected, as `... AS exchange`, by the footprint, CVD and EMA queries. Without one, the CVD and EMA lists are exactly their fixed columns and the footprint list has its 13; `FootprintColumnsShape` gives that list's exact shape. |
| SelectLists.CandleSelectNoPercent | tradeinternal_mcp_server/repository.py:106 | The candle SELECT clause contains no `%`. |
| SelectLists.FootprintSelectNoPercent | tradeinternal_mcp_server/repository.py:185-208 | The footprint SELECT clause contains no `%`. |
| SelectLists.CvdSelectNoPercent | tradeinternal_mcp_server/repository.py:305-323 | The CVD SELECT clause contains no `%`. |
| SelectLists.EmaSelectNoPercent | tradeinternal_mcp_server/repository.py:401-416 | The EMA SELECT clause contains no `%`. |
| Repositories.ReverseInPlace | tradeinternal_mcp_server/repository.py:133 | `rows.reverse()` leaves the list holding its old contents in reverse order. |
| Repositories.ReversedTwice | tradeinternal_mcp_server/repository.py:133 | Reversing twice restores the original order. |
| Repositories.ReversedIsChronological | tradeinternal_mcp_server/repository.py:127-133 | Rows that arrive newest first, under any order, come out oldest first. |
| Repositories.SerializeRows | tradeinternal_mcp_server/repository.py:134 | The list comprehension serialises every row, in order. |
| Repositories.SerializeFootprints | tradeinternal_mcp_server/repository.py:236-254 | The footprint loop gives each row serialised and with `levels` decoded, in order. |
| Repositories.Chronological | tradeinternal_mcp_server/repository.py:131-134 | A candle, CVD or EMA result has as many rows as the answer. Row `i` is the serialisation of answer row `n-1-i`. A driver error is passed on. |
| Repositories.ChronologicalFootprints | tradeinternal_mcp_server/repository.py:233-254 | The same for footprints, each row also having `levels` decoded. |
| Repositories.FetchedRowFields | tradeinternal_mcp_server/repository.py:236-254 | A footprint row keeps the database row's keys, and differs from plain serialisation at most in `levels`. |
| Repositories.CandleRepository.Create | tradeinternal_mcp_server/repository.py:60-76 | Building succeeds exactly when `Configure` does, with the candle table as default, and stores the gateway and the names. |
| Repositories.CandleRepository.FetchCandles | tradeinternal_mcp_server/repository.py:91-134 | A refused exchange filter raises with nothing sent. Otherwise exactly one statement is sent, its placeholders match its parameters, and the result is `Chronological` of the answer. |
| Repositories.VolumeFootprintRepository.Create | tradeinternal_mcp_server/repository.py:140-156 | The same as the candle `Create`, with the footprint table and no exchange column by default. |
| Repositories.VolumeFootprintRepository.FetchVolumeFootprints | tradeinternal_mcp_server/repository.py:171-254 | The same as `FetchCandles`, with the footprint SELECT; the result is `ChronologicalFootprints` of the answer. |
| Repositories.CandleCvdRepository.Create | tradeinternal_mcp_server/repository.py:260-276 | The same as the candle `Create`, with the CVD table. |
| Repositories.CandleCvdRepository.FetchCvd | tradeinternal_mcp_server/repository.py:291-350 | The same as `FetchCandles`, with the CVD SELECT. |
| Repositories.EmaRepository.Create | tradeinternal_mcp_server/repository.py:356-372 | The same as the candle `Create`, with the EMA table. |
| Repositories.EmaRepository.FetchEma | tradeinternal_mcp_server/repository.py:387-443 | The same as `FetchCandles`, with the EMA SELECT. |
| Repositories.DefaultFootprintRejectsExchange | tradeinternal_mcp_server/repository.py:147-156 | With its defaults the footprint repository builds with no exchange column and refuses every exchange filter. |
| Repositories.DefaultCandleAcceptsExchange | tradeinternal_mcp_server/repository.py:63-76 | With its defaults the candle repository configures `exchange` and accepts an exchange filter. |
| Envelopes.FormatTimestamp | tradeinternal_mcp_server/server.py:286-293 | A falsy value gives null. Parseable text gives its `YYYY-MM-DD HH:MM:SS` form. Text that `fromisoformat` rejects is returned as it is. A truthy non-string raises `TypeError`. |
| Envelopes.DisplayFormIsStable | tradeinternal_mcp_server/server.py:286-293 | Formatting the display form of any valid datetime gives it back. This holds for every `fromisoformat` that agrees with the reference parser. |
| Envelopes.SerializedDateTimeDisplays | tradeinternal_mcp_server/server.py:286-293 | A datetime the serializer turned into ISO text is displayed as that datetime's second. This holds for every `fromisoformat` that agrees with the reference parser. |
| Envelopes.SerializedDateDisplays | tradeinternal_mcp_server/server.py:286-293 | A serialised date is displayed as midnight of that date. This holds for every such `fromisoformat`. |
| Envelopes.BoundaryTimestamps | tradeinternal_mcp_server/server.py:297-298 | With no rows, both bounds are null. Otherwise they are the first and last rows' `timestamp`, and a missing key raises `KeyError`. |
| Envelopes.RowsResponse | tradeinternal_mcp_server/server.py:296-305 | `count` is the number of rows, and the rows are returned as given. With no rows both bounds are null. A missing first or last `timestamp` raises `KeyError`. A truthy non-string bound raises `TypeError`. Otherwise the bounds are the formatted first and last timestamps. |
| Envelopes.FormatCandleResponse | tradeinternal_mcp_server/server.py:296-305 | It is the shared envelope under `candles`, so `RowsResponse`'s contract applies: the formatted first and last timestamps and the `KeyError` cases. The count and rows are as given, with null bounds when there are no rows. |
| Envelopes.FormatVolumeFootprintResponse | tradeinternal_mcp_server/server.py:308-317 | The same, under `footprints`. |
| Envelopes.FormatCvdResponse | tradeinternal_mcp_server/server.py:320-329 | The same, under `cvd`. |
| Envelopes.SameShape | tradeinternal_mcp_server/server.py:308-329 | The footprint and CVD envelopes fail exactly when the candle envelope does. They are otherwise equal to it except for the key holding the rows. |
| Envelopes.EnvelopeSpansAnswer | tradeinternal_mcp_server/server.py:296-305 | For a non-empty answer whose first row is stamped `newest` and last row `oldest`, the fetch succeeds. The candle envelope of its rows starts at `oldest`'s display second and ends at `newest`'s, with count equal to the answer's length. This holds for every `fromisoformat` that agrees with the reference parser. |
| Envelopes.EmaAliasFields | tradeinternal_mcp_server/server.py:339-346 | Every original key keeps its value unless it is one of the four aliases. `_20_ema`, `_50_ema`, `_100_ema` and `_200_ema` hold the values of `20_ema` through `200_ema`, or null when absent. No other key is added. |
| Envelopes.EmaRowsInOrder | tradeinternal_mcp_server/server.py:337-347 | Output row `i` is input row `i` with its aliases. |
| Envelopes.AliasRows | tradeinternal_mcp_server/server.py:337-347 | The loop that appends to `normalized_rows` computes exactly `EmaRows`. |
| Envelopes.FormatEmaResponse | tradeinternal_mcp_server/server.py:332-354 | The EMA envelope fails exactly when the shared envelope does, with the same error. Otherwise it equals the shared envelope with the rows replaced by their aliased copies, one per input row and in order. |

## Left out

- `database.py` connection handling (pymysql, connection and cursor lifetimes) is not modelled. The gateway's answer is a fixed function of the statement, and every driver exception becomes one `DataAccess` error.
- The database's own semantics (filtering, `ORDER BY ... DESC`, `LIMIT`) are not modelled, because the answer is arbitrary. `Repositories.ReversedIsChronological` states what follows when the answer is newest first.
- `config.py`, the `from_env` classmethods and `os.getenv` are not modelled: they only read the environment.
- `api.py`, the FastMCP tool functions, `server.run`, the lazily built `get_*_repository` singletons, `sample_fastapi_client.py` and `test.py` are not modelled: they are routing, I/O and call-through wrappers.
- The TypedDict declarations are not modelled: they are types only and are never checked at run time.
- Float conversion of `Decimal` is exact here (`VFloat` carries the real value), because binary floating-point rounding is not modelled.
- UTF-8 decoding, `json.loads` and `datetime.fromisoformat` are given partial functions. `IsoTime.ParseIso` covers only the canonical forms `isoformat()` produces. The display lemmas assume only that the given `fromisoformat` agrees with it there.
- Only naive datetimes are modelled. `isoformat()` and `strftime` of time-zone-aware values (with an offset) are not.
- `IsoTime.Strftime` pads the year to four digits. The C library's `%Y` does not pad years below 1000, so those years are displayed differently by the source.
- Exceptions other than `ValueError` that `json.loads` can raise, such as `RecursionError` on deeply nested text, are not modelled.
- A `None` passed for the table or for the symbol, time-frame or timestamp column is not modelled. These parameters are strings, so `value or default` is modelled only for the empty string.
- Repositories.CandleRepository.FetchCandles: uses the intended time-frame table; the code as written raises `NameError` on every call (see Findings).
- Repositories.VolumeFootprintRepository.FetchVolumeFootprints: uses the intended time-frame table, as `FetchCandles` does.
- Repositories.CandleCvdRepository.FetchCvd: uses the intended time-frame table, as `FetchCandles` does.
- Repositories.EmaRepository.FetchEma: uses the intended time-frame table, as `FetchCandles` does.
- RepositoryConfig.Configure: uses the intended sanitizer. The source's constructors accept a name ending in one `\n`, for example `CandleRepository(db, symbol_column="symbol\n")`, and `Configure` rejects it (see Findings).
- Repositories.CandleRepository.Create: rejects a name ending in a newline, through `Configure`.
- Repositories.VolumeFootprintRepository.Create: rejects a name ending in a newline, through `Configure`.
- Repositories.CandleCvdRepository.Create: rejects a name ending in a newline, through `Configure`.
- Repositories.EmaRepository.Create: rejects a name ending in a newline, through `Configure`.

## Findings

| source | as written | input that shows it | evidently intended | confidence | as-written member | corrected member |
|---|---|---|---|---|---|---|
| tradeinternal_mcp_server/repository.py:27 | The first test reads the unbound name `vahalue`, so `_normalize_time_frame` raises `NameError` on every call. Every `fetch_*` therefore raises before building a statement. | `_normalize_time_frame("30")` (any input) | `value == "1"`: the six-entry table with pass-through for everything else | high, not executed | TimeFrames.NormalizeTimeFrameAsWritten | TimeFrames.NormalizeTimeFrame |
| tradeinternal_mcp_server/repository.py:14 | `^[A-Za-z0-9_]+$` with `re.match`: `$` also matches before a final newline, so a name ending in `\n` passes the sanitizer and is interpolated into SQL | `_sanitize_identifier("symbol\n", "symbol")` returns `"symbol\n"` | only non-empty strings over `[A-Za-z0-9_]` pass (`\Z` or `fullmatch`) | high, not executed | Identifiers.SanitizeIdentifierAsWritten | Identifiers.SanitizeIdentifier |
