/**
 * The four repositories. Each is built once from sanitised identifiers; each `fetch_*`
 * clamps the limit, normalises the time frame, builds its statement, sends it through
 * the gateway, reverses the newest-first answer in place and serialises every row.
 */
module Repositories {
  import opened Wrappers
  import opened Errors
  import opened Values
  import opened Serializer
  import opened RepositoryConfig
  import opened QueryBuilder
  import opened SelectLists
  import opened Gateway
  import Identifiers

  /** The rows of `s` in the opposite order. */
  function Reversed(s: seq<Row>): (r: seq<Row>)
    ensures |r| == |s|
  {
    seq(|s|, i requires 0 <= i < |s| => s[|s| - 1 - i])
  }

  /** Reversing twice gives back the original order. */
  lemma ReversedTwice(s: seq<Row>)
    ensures Reversed(Reversed(s)) == s
  {
  }

  /**
   * Rows the database sent newest first (each row later than every row after it, for
   * any strict order `later`) come out oldest first.
   */
  lemma ReversedIsChronological(s: seq<Row>, later: (Row, Row) -> bool)
    requires forall i, j :: 0 <= i < j < |s| ==> later(s[i], s[j])
    ensures forall i, j :: 0 <= i < j < |s| ==> later(Reversed(s)[j], Reversed(s)[i])
  {
  }

  /** `rows.reverse()`: swaps the outermost pair that is still unswapped until the middle. */
  method ReverseInPlace(a: array<Row>)
    modifies a
    ensures a[..] == Reversed(old(a[..]))
  {
    var n := a.Length;
    for i := 0 to n / 2
      invariant forall k :: 0 <= k < i ==> a[k] == old(a[n - 1 - k]) && a[n - 1 - k] == old(a[k])
      invariant forall k :: i <= k < n - i ==> a[k] == old(a[k])
    {
      a[i], a[n - 1 - i] := a[n - 1 - i], a[i];
    }
  }

  function SerializedRows(rows: seq<Row>): (r: seq<Row>)
    ensures |r| == |rows|
  {
    seq(|rows|, i requires 0 <= i < |rows| => SerializedRow(rows[i]))
  }

  /** `[_serialize_row(row) for row in rows]`. */
  method SerializeRows(a: array<Row>) returns (out: seq<Row>)
    ensures out == SerializedRows(a[..])
  {
    out := [];
    for i := 0 to a.Length
      invariant out == SerializedRows(a[..i])
    {
      var serialized := SerializeRow(a[i]);
      assert a[..i + 1] == a[..i] + [a[i]];
      out := out + [serialized];
    }
    assert a[..] == a[..a.Length];
  }

  /** A footprint row: serialised, then its `levels` field decoded. */
  function FootprintRow(row: Row, decodeUtf8: seq<byte> -> Option<string>,
                        loadsJson: string -> Option<Value>): Row {
    DecodeLevels(SerializedRow(row), decodeUtf8, loadsJson)
  }

  function FootprintRows(rows: seq<Row>, decodeUtf8: seq<byte> -> Option<string>,
                         loadsJson: string -> Option<Value>): (r: seq<Row>)
    ensures |r| == |rows|
  {
    seq(|rows|, i requires 0 <= i < |rows| => FootprintRow(rows[i], decodeUtf8, loadsJson))
  }

  /** The loop of `fetch_volume_footprints` that fills `serialized_rows`. */
  method SerializeFootprints(a: array<Row>, decodeUtf8: seq<byte> -> Option<string>,
                             loadsJson: string -> Option<Value>) returns (out: seq<Row>)
    ensures out == FootprintRows(a[..], decodeUtf8, loadsJson)
  {
    out := [];
    for i := 0 to a.Length
      invariant out == FootprintRows(a[..i], decodeUtf8, loadsJson)
    {
      var serialized := SerializeRow(a[i]);
      serialized := DecodeLevelsStep(serialized, decodeUtf8, loadsJson);
      assert a[..i + 1] == a[..i] + [a[i]];
      out := out + [serialized];
    }
    assert a[..] == a[..a.Length];
  }

  /** What a candle, CVD or EMA fetch returns for the database's answer. */
  function Chronological(answer: Option<seq<Row>>): (r: Result<seq<Row>, Error>)
    ensures answer.None? <==> r == Failure(DataAccess)
    ensures answer.Some? ==> r.Success? && |r.value| == |answer.value|
    ensures answer.Some? ==> forall i :: 0 <= i < |r.value| ==>
      r.value[i] == SerializedRow(answer.value[|answer.value| - 1 - i])
  {
    match answer
    case None => Failure(DataAccess)
    case Some(rows) => Success(SerializedRows(Reversed(rows)))
  }

  /** What a footprint fetch returns for the database's answer. */
  function ChronologicalFootprints(answer: Option<seq<Row>>, decodeUtf8: seq<byte> -> Option<string>,
                                   loadsJson: string -> Option<Value>): (r: Result<seq<Row>, Error>)
    ensures answer.None? <==> r == Failure(DataAccess)
    ensures answer.Some? ==> r.Success? && |r.value| == |answer.value|
    ensures answer.Some? ==> forall i :: 0 <= i < |r.value| ==>
      r.value[i] == FootprintRow(answer.value[|answer.value| - 1 - i], decodeUtf8, loadsJson)
  {
    match answer
    case None => Failure(DataAccess)
    case Some(rows) => Success(FootprintRows(Reversed(rows), decodeUtf8, loadsJson))
  }

  /**
   * Every fetched row keeps its keys, and a key holds its serialised value; a footprint
   * row differs from the plain serialisation at most in `levels`.
   */
  lemma FetchedRowFields(row: Row, decodeUtf8: seq<byte> -> Option<string>,
                         loadsJson: string -> Option<Value>, k: string)
    ensures Keys(FootprintRow(row, decodeUtf8, loadsJson)) == Keys(row)
    ensures k != "levels" ==> Get(FootprintRow(row, decodeUtf8, loadsJson), k) == Get(SerializedRow(row), k)
  {
  }

  class CandleRepository {
    const db: DatabaseClient
    const config: SanitizedConfig

    constructor(db: DatabaseClient, config: SanitizedConfig)
      ensures this.db == db && this.config == config
    {
      this.db := db;
      this.config := config;
    }

    /** `CandleRepository(db, ...)`: raises on the first name that is not an identifier. */
    static method Create(db: DatabaseClient, table: string := CandleTable, symbolColumn: string := "symbol",
                         timeFrameColumn: string := "time_frame", timestampColumn: string := "timestamp",
                         exchangeColumn: Option<string> := Some("exchange"))
      returns (r: Result<CandleRepository, Error>)
      ensures var c := Configure(CandleTable, table, symbolColumn, timeFrameColumn, timestampColumn, exchangeColumn);
        && (r.Success? <==> c.Success?)
        && (r.Failure? ==> r.error == c.error)
        && (r.Success? ==> fresh(r.value) && r.value.db == db && r.value.config == c.value)
    {
      var c := Configure(CandleTable, table, symbolColumn, timeFrameColumn, timestampColumn, exchangeColumn);
      if c.Failure? {
        return Failure(c.error);
      }
      var repository := new CandleRepository(db, c.value);
      r := Success(repository);
    }

    /**
     * `fetch_candles`: nothing is sent when the exchange filter is refused; otherwise
     * exactly one statement, whose placeholders match its parameters, and the answer
     * oldest first with every row serialised.
     */
    method FetchCandles(symbol: string, timeFrame: string, limit: int, exchange: Option<string> := None,
                        start: Option<string> := None, end: Option<string> := None)
      returns (r: Result<seq<Row>, Error>)
      modifies db
      ensures var q := QueryFor(config, CandleSelect(config), symbol, timeFrame, limit, exchange, start, end);
        && (q.Failure? ==> r == Failure(q.error) && db.sent == old(db.sent))
        && (q.Success? ==> db.sent == old(db.sent) + [q.value]
                           && Placeholders(q.value.sql) == |q.value.params|
                           && r == Chronological(db.answer(q.value.sql, q.value.params)))
    {
      var q := BuildQuery(config, CandleSelect(config), symbol, timeFrame, limit, exchange, start, end);
      if q.Failure? {
        return Failure(q.error);
      }
      CandleSelectNoPercent(config);
      PlaceholdersMatchParams(config, CandleSelect(config), symbol, timeFrame, limit, exchange, start, end);
      var fetched := db.FetchAll(q.value.sql, q.value.params);
      if fetched.Failure? {
        return Failure(fetched.error);
      }
      var rows := fetched.value;
      ReverseInPlace(rows);
      var serialized := SerializeRows(rows);
      r := Success(serialized);
    }
  }

  class VolumeFootprintRepository {
    const db: DatabaseClient
    const config: SanitizedConfig

    constructor(db: DatabaseClient, config: SanitizedConfig)
      ensures this.db == db && this.config == config
    {
      this.db := db;
      this.config := config;
    }

    /** `VolumeFootprintRepository(db, ...)`: by default no exchange column is configured. */
    static method Create(db: DatabaseClient, table: string := FootprintTable, symbolColumn: string := "symbol",
                         timeFrameColumn: string := "time_frame", timestampColumn: string := "timestamp",
                         exchangeColumn: Option<string> := None)
      returns (r: Result<VolumeFootprintRepository, Error>)
      ensures var c := Configure(FootprintTable, table, symbolColumn, timeFrameColumn, timestampColumn, exchangeColumn);
        && (r.Success? <==> c.Success?)
        && (r.Failure? ==> r.error == c.error)
        && (r.Success? ==> fresh(r.value) && r.value.db == db && r.value.config == c.value)
    {
      var c := Configure(FootprintTable, table, symbolColumn, timeFrameColumn, timestampColumn, exchangeColumn);
      if c.Failure? {
        return Failure(c.error);
      }
      var repository := new VolumeFootprintRepository(db, c.value);
      r := Success(repository);
    }

    /**
     * `fetch_volume_footprints`: as `fetch_candles`, and each row's `levels` goes through
     * the decoding chain; UTF-8 decoding and JSON parsing are given as partial functions.
     */
    method FetchVolumeFootprints(symbol: string, timeFrame: string, limit: int,
                                 decodeUtf8: seq<byte> -> Option<string>, loadsJson: string -> Option<Value>,
                                 exchange: Option<string> := None, start: Option<string> := None,
                                 end: Option<string> := None)
      returns (r: Result<seq<Row>, Error>)
      modifies db
      ensures var q := QueryFor(config, FootprintSelect(config), symbol, timeFrame, limit, exchange, start, end);
        && (q.Failure? ==> r == Failure(q.error) && db.sent == old(db.sent))
        && (q.Success? ==> db.sent == old(db.sent) + [q.value]
                           && Placeholders(q.value.sql) == |q.value.params|
                           && r == ChronologicalFootprints(db.answer(q.value.sql, q.value.params), decodeUtf8, loadsJson))
    {
      var q := BuildQuery(config, FootprintSelect(config), symbol, timeFrame, limit, exchange, start, end);
      if q.Failure? {
        return Failure(q.error);
      }
      FootprintSelectNoPercent(config);
      PlaceholdersMatchParams(config, FootprintSelect(config), symbol, timeFrame, limit, exchange, start, end);
      var fetched := db.FetchAll(q.value.sql, q.value.params);
      if fetched.Failure? {
        return Failure(fetched.error);
      }
      var rows := fetched.value;
      ReverseInPlace(rows);
      var serialized := SerializeFootprints(rows, decodeUtf8, loadsJson);
      r := Success(serialized);
    }
  }

  class CandleCvdRepository {
    const db: DatabaseClient
    const config: SanitizedConfig

    constructor(db: DatabaseClient, config: SanitizedConfig)
      ensures this.db == db && this.config == config
    {
      this.db := db;
      this.config := config;
    }

    static method Create(db: DatabaseClient, table: string := CvdTable, symbolColumn: string := "symbol",
                         timeFrameColumn: string := "time_frame", timestampColumn: string := "timestamp",
                         exchangeColumn: Option<string> := Some("exchange"))
      returns (r: Result<CandleCvdRepository, Error>)
      ensures var c := Configure(CvdTable, table, symbolColumn, timeFrameColumn, timestampColumn, exchangeColumn);
        && (r.Success? <==> c.Success?)
        && (r.Failure? ==> r.error == c.error)
        && (r.Success? ==> fresh(r.value) && r.value.db == db && r.value.config == c.value)
    {
      var c := Configure(CvdTable, table, symbolColumn, timeFrameColumn, timestampColumn, exchangeColumn);
      if c.Failure? {
        return Failure(c.error);
      }
      var repository := new CandleCvdRepository(db, c.value);
      r := Success(repository);
    }

    method FetchCvd(symbol: string, timeFrame: string, limit: int, exchange: Option<string> := None,
                    start: Option<string> := None, end: Option<string> := None)
      returns (r: Result<seq<Row>, Error>)
      modifies db
      ensures var q := QueryFor(config, CvdSelect(config), symbol, timeFrame, limit, exchange, start, end);
        && (q.Failure? ==> r == Failure(q.error) && db.sent == old(db.sent))
        && (q.Success? ==> db.sent == old(db.sent) + [q.value]
                           && Placeholders(q.value.sql) == |q.value.params|
                           && r == Chronological(db.answer(q.value.sql, q.value.params)))
    {
      var q := BuildQuery(config, CvdSelect(config), symbol, timeFrame, limit, exchange, start, end);
      if q.Failure? {
        return Failure(q.error);
      }
      CvdSelectNoPercent(config);
      PlaceholdersMatchParams(config, CvdSelect(config), symbol, timeFrame, limit, exchange, start, end);
      var fetched := db.FetchAll(q.value.sql, q.value.params);
      if fetched.Failure? {
        return Failure(fetched.error);
      }
      var rows := fetched.value;
      ReverseInPlace(rows);
      var serialized := SerializeRows(rows);
      r := Success(serialized);
    }
  }

  class EmaRepository {
    const db: DatabaseClient
    const config: SanitizedConfig

    constructor(db: DatabaseClient, config: SanitizedConfig)
      ensures this.db == db && this.config == config
    {
      this.db := db;
      this.config := config;
    }

    static method Create(db: DatabaseClient, table: string := EmaTable, symbolColumn: string := "symbol",
                         timeFrameColumn: string := "time_frame", timestampColumn: string := "timestamp",
                         exchangeColumn: Option<string> := Some("exchange"))
      returns (r: Result<EmaRepository, Error>)
      ensures var c := Configure(EmaTable, table, symbolColumn, timeFrameColumn, timestampColumn, exchangeColumn);
        && (r.Success? <==> c.Success?)
        && (r.Failure? ==> r.error == c.error)
        && (r.Success? ==> fresh(r.value) && r.value.db == db && r.value.config == c.value)
    {
      var c := Configure(EmaTable, table, symbolColumn, timeFrameColumn, timestampColumn, exchangeColumn);
      if c.Failure? {
        return Failure(c.error);
      }
      var repository := new EmaRepository(db, c.value);
      r := Success(repository);
    }

    method FetchEma(symbol: string, timeFrame: string, limit: int, exchange: Option<string> := None,
                    start: Option<string> := None, end: Option<string> := None)
      returns (r: Result<seq<Row>, Error>)
      modifies db
      ensures var q := QueryFor(config, EmaSelect(config), symbol, timeFrame, limit, exchange, start, end);
        && (q.Failure? ==> r == Failure(q.error) && db.sent == old(db.sent))
        && (q.Success? ==> db.sent == old(db.sent) + [q.value]
                           && Placeholders(q.value.sql) == |q.value.params|
                           && r == Chronological(db.answer(q.value.sql, q.value.params)))
    {
      var q := BuildQuery(config, EmaSelect(config), symbol, timeFrame, limit, exchange, start, end);
      if q.Failure? {
        return Failure(q.error);
      }
      EmaSelectNoPercent(config);
      PlaceholdersMatchParams(config, EmaSelect(config), symbol, timeFrame, limit, exchange, start, end);
      var fetched := db.FetchAll(q.value.sql, q.value.params);
      if fetched.Failure? {
        return Failure(fetched.error);
      }
      var rows := fetched.value;
      ReverseInPlace(rows);
      var serialized := SerializeRows(rows);
      r := Success(serialized);
    }
  }

  /**
   * With the constructor defaults the footprint repository has no exchange column, so
   * it refuses an exchange filter.
   */
  lemma DefaultFootprintRejectsExchange(symbol: string, timeFrame: string, limit: int, exchange: string,
                                        start: Option<string>, end: Option<string>)
    ensures var c := Configure(FootprintTable, FootprintTable, "symbol", "time_frame", "timestamp", None);
      && c.Success? && c.value.exchangeColumn.None?
      && QueryFor(c.value, FootprintSelect(c.value), symbol, timeFrame, limit, Some(exchange), start, end)
         == Failure(ExchangeFilterUnavailable)
  {
    DefaultNamesAreIdentifiers();
    var c := Configure(FootprintTable, FootprintTable, "symbol", "time_frame", "timestamp", None);
    assert c.value == Config(FootprintTable, "symbol", "time_frame", "timestamp", None);
  }

  /** The candle, CVD and EMA defaults configure the `exchange` column, so an exchange filter is accepted. */
  lemma DefaultCandleAcceptsExchange(symbol: string, timeFrame: string, limit: int, exchange: string,
                                     start: Option<string>, end: Option<string>)
    ensures var c := Configure(CandleTable, CandleTable, "symbol", "time_frame", "timestamp", Some("exchange"));
      && c.Success? && c.value.exchangeColumn == Some("exchange")
      && QueryFor(c.value, CandleSelect(c.value), symbol, timeFrame, limit, Some(exchange), start, end).Success?
  {
    DefaultNamesAreIdentifiers();
    var c := Configure(CandleTable, CandleTable, "symbol", "time_frame", "timestamp", Some("exchange"));
    assert c.value == Config(CandleTable, "symbol", "time_frame", "timestamp", Some("exchange"));
  }

  lemma DefaultNamesAreIdentifiers()
    ensures Identifiers.IsIdentifier(FootprintTable) && Identifiers.IsIdentifier(CandleTable)
    ensures Identifiers.IsIdentifier("symbol") && Identifiers.IsIdentifier("time_frame")
    ensures Identifiers.IsIdentifier("timestamp") && Identifiers.IsIdentifier("exchange")
  {
  }
}
