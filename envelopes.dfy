/**
 * The response envelopes the server's tools return: the first and last row's
 * `timestamp` in display form, the row count and the rows under a per-tool key. The
 * EMA envelope also gives every row underscore-prefixed copies of its EMA columns.
 */
module Envelopes {
  import opened Wrappers
  import opened Errors
  import opened Values
  import opened IsoTime
  import opened Serializer
  import opened Repositories

  /**
   * `_format_timestamp(value)`: a falsy value gives `None`; text that `fromisoformat`
   * parses is shown as `YYYY-MM-DD HH:MM:SS`; other text is returned as it is; any
   * other truthy value makes `fromisoformat` raise `TypeError`.
   */
  function FormatTimestamp(v: Value, fromIso: string -> Option<DateTime>): (r: Result<Option<string>, Error>)
    ensures r.Failure? <==> Truthy(v) && !v.VStr?
    ensures r.Failure? ==> r.error == TypeError
    ensures !Truthy(v) ==> r == Success(None)
    ensures r.Success? && r.value.Some? ==>
      v.VStr? && (r.value.value == v.s <==> fromIso(v.s).None? || Strftime(fromIso(v.s).value) == v.s)
    ensures v.VStr? && v.s != "" && fromIso(v.s).Some? ==> r == Success(Some(Strftime(fromIso(v.s).value)))
    ensures v.VStr? && v.s != "" && fromIso(v.s).None? ==> r == Success(Some(v.s))
  {
    if !Truthy(v) then Success(None)
    else if !v.VStr? then Failure(TypeError)
    else match fromIso(v.s)
      case None => Success(Some(v.s))
      case Some(t) => Success(Some(Strftime(t)))
  }

  /**
   * `fromisoformat` agrees with the reference parser on every string the reference parser
   * accepts (it accepts more forms, which these lemmas never produce).
   */
  ghost predicate ExtendsParseIso(fromIso: string -> Option<DateTime>) {
    forall s :: ParseIso(s).Some? ==> fromIso(s) == ParseIso(s)
  }

  /** The display form is a fixed point: formatting it again gives it back. */
  lemma DisplayFormIsStable(t: DateTime, fromIso: string -> Option<DateTime>)
    requires ValidDateTime(t) && ExtendsParseIso(fromIso)
    ensures FormatTimestamp(VStr(Strftime(t)), fromIso) == Success(Some(Strftime(t)))
  {
    StrftimeParses(t);
    assert Strftime(t.(microsecond := 0)) == Strftime(t);
  }

  /** A datetime the serializer turned into ISO text is displayed as its own second. */
  lemma SerializedDateTimeDisplays(t: DateTime, fromIso: string -> Option<DateTime>)
    requires ValidDateTime(t) && ExtendsParseIso(fromIso)
    ensures FormatTimestamp(SerializeValue(VDateTime(t)), fromIso) == Success(Some(Strftime(t)))
  {
    IsoFormatRoundTrip(t);
    assert Truthy(VStr(DateTimeIsoFormat(t))) by {
      assert |DateTimeIsoFormat(t)| >= 19;
    }
  }

  /** A date the serializer turned into ISO text is displayed as midnight of that day. */
  lemma SerializedDateDisplays(d: Date, fromIso: string -> Option<DateTime>)
    requires ValidDate(d.year, d.month, d.day) && ExtendsParseIso(fromIso)
    ensures FormatTimestamp(SerializeValue(VDate(d)), fromIso)
            == Success(Some(Strftime(DateTime(d.year, d.month, d.day, 0, 0, 0, 0))))
  {
    DateIsoFormatRoundTrip(d);
    assert Truthy(VStr(DateIsoFormat(d))) by {
      assert |DateIsoFormat(d)| == 10;
    }
  }

  /** An envelope: the two display bounds, the count and the rows under `rowsKey`. */
  datatype Response = Response(startTimestamp: Option<string>, endTimestamp: Option<string>,
                               count: nat, rowsKey: string, rows: seq<Row>)

  /**
   * `rows[0]["timestamp"]` and `rows[-1]["timestamp"]`, or `None` for both when there
   * are no rows; a row without the key raises `KeyError`, the first row's before the last.
   */
  function BoundaryTimestamps(rows: seq<Row>): (r: Result<(Value, Value), Error>)
    ensures rows == [] ==> r == Success((VNull, VNull))
    ensures rows != [] ==>
      (r.Success? <==> "timestamp" in Keys(rows[0]) && "timestamp" in Keys(rows[|rows| - 1]))
    ensures r.Failure? ==> r.error == KeyError("timestamp")
    ensures r.Success? && rows != [] ==>
      Some(r.value.0) == Get(rows[0], "timestamp") && Some(r.value.1) == Get(rows[|rows| - 1], "timestamp")
  {
    if rows == [] then Success((VNull, VNull))
    else
      var first := Get(rows[0], "timestamp");
      var last := Get(rows[|rows| - 1], "timestamp");
      if first.None? || last.None? then Failure(KeyError("timestamp"))
      else Success((first.value, last.value))
  }

  /**
   * The envelope the candle, footprint and CVD responses share: the count is the number
   * of rows and the rows are returned as given, in the same order; with no rows both
   * bounds are null; otherwise they are the formatted first and last `timestamp`.
   */
  function RowsResponse(rows: seq<Row>, rowsKey: string, fromIso: string -> Option<DateTime>): (r: Result<Response, Error>)
    ensures r.Success? ==> r.value.count == |rows| && r.value.rows == rows && r.value.rowsKey == rowsKey
    ensures rows == [] ==> r == Success(Response(None, None, 0, rowsKey, []))
    ensures rows != [] && "timestamp" !in Keys(rows[0]) ==> r == Failure(KeyError("timestamp"))
    ensures rows != [] && "timestamp" !in Keys(rows[|rows| - 1]) ==> r == Failure(KeyError("timestamp"))
    ensures rows != [] && "timestamp" in Keys(rows[0]) && "timestamp" in Keys(rows[|rows| - 1]) ==>
      && (r.Success? <==> FormatTimestamp(Get(rows[0], "timestamp").value, fromIso).Success?
                          && FormatTimestamp(Get(rows[|rows| - 1], "timestamp").value, fromIso).Success?)
      && (r.Success? ==> r.value.startTimestamp == FormatTimestamp(Get(rows[0], "timestamp").value, fromIso).value
                         && r.value.endTimestamp == FormatTimestamp(Get(rows[|rows| - 1], "timestamp").value, fromIso).value)
      && (r.Failure? ==> r.error == TypeError)
  {
    var bounds :- BoundaryTimestamps(rows);
    var start :- FormatTimestamp(bounds.0, fromIso);
    var end :- FormatTimestamp(bounds.1, fromIso);
    Success(Response(start, end, |rows|, rowsKey, rows))
  }

  /** `format_candle_response`. */
  function FormatCandleResponse(rows: seq<Row>, fromIso: string -> Option<DateTime>): (r: Result<Response, Error>)
    ensures r.Success? ==> r.value.rowsKey == "candles" && r.value.count == |rows| && r.value.rows == rows
    ensures rows == [] ==> r == Success(Response(None, None, 0, "candles", []))
    ensures r == RowsResponse(rows, "candles", fromIso)
  {
    RowsResponse(rows, "candles", fromIso)
  }

  /** `format_volume_footprint_response`. */
  function FormatVolumeFootprintResponse(rows: seq<Row>, fromIso: string -> Option<DateTime>): (r: Result<Response, Error>)
    ensures r.Success? ==> r.value.rowsKey == "footprints" && r.value.count == |rows| && r.value.rows == rows
    ensures rows == [] ==> r == Success(Response(None, None, 0, "footprints", []))
    ensures r == RowsResponse(rows, "footprints", fromIso)
  {
    RowsResponse(rows, "footprints", fromIso)
  }

  /** `format_cvd_response`. */
  function FormatCvdResponse(rows: seq<Row>, fromIso: string -> Option<DateTime>): (r: Result<Response, Error>)
    ensures r.Success? ==> r.value.rowsKey == "cvd" && r.value.count == |rows| && r.value.rows == rows
    ensures rows == [] ==> r == Success(Response(None, None, 0, "cvd", []))
    ensures r == RowsResponse(rows, "cvd", fromIso)
  {
    RowsResponse(rows, "cvd", fromIso)
  }

  /**
   * The footprint and CVD envelopes are the candle envelope with another key for the
   * rows: they fail on the same inputs with the same error and agree in every other part.
   */
  lemma SameShape(rows: seq<Row>, fromIso: string -> Option<DateTime>)
    ensures var candles := FormatCandleResponse(rows, fromIso);
      && (candles.Failure? ==> FormatVolumeFootprintResponse(rows, fromIso) == candles)
      && (candles.Failure? ==> FormatCvdResponse(rows, fromIso) == candles)
      && (candles.Success? ==> FormatVolumeFootprintResponse(rows, fromIso) == Success(candles.value.(rowsKey := "footprints")))
      && (candles.Success? ==> FormatCvdResponse(rows, fromIso) == Success(candles.value.(rowsKey := "cvd")))
  {
  }

  /**
   * The whole read path: for a non-empty answer whose first and last rows carry valid
   * datetimes newest first, the candle envelope of what the fetch returns starts at the
   * oldest row's second and ends at the newest row's.
   */
  lemma EnvelopeSpansAnswer(answer: seq<Row>, newest: DateTime, oldest: DateTime,
                            fromIso: string -> Option<DateTime>)
    requires |answer| > 0 && ValidDateTime(newest) && ValidDateTime(oldest) && ExtendsParseIso(fromIso)
    requires Get(answer[0], "timestamp") == Some(VDateTime(newest))
    requires Get(answer[|answer| - 1], "timestamp") == Some(VDateTime(oldest))
    ensures var rows := Chronological(Some(answer));
      && rows.Success?
      && FormatCandleResponse(rows.value, fromIso)
         == Success(Response(Some(Strftime(oldest)), Some(Strftime(newest)), |answer|, "candles", rows.value))
  {
    ChronologicalEnds(answer);
    EnvelopeOfSerializedEnds(Chronological(Some(answer)).value, answer[|answer| - 1], answer[0],
                             oldest, newest, fromIso);
  }

  /** The first fetched row is the serialised oldest answer row, the last the serialised newest. */
  lemma ChronologicalEnds(answer: seq<Row>)
    requires |answer| > 0
    ensures var rows := Chronological(Some(answer));
      && rows.Success? && |rows.value| == |answer|
      && rows.value[0] == SerializedRow(answer[|answer| - 1])
      && rows.value[|answer| - 1] == SerializedRow(answer[0])
  {
  }

  /** The candle envelope of rows whose first and last are serialised rows with datetime stamps. */
  lemma EnvelopeOfSerializedEnds(rows: seq<Row>, first: Row, last: Row, oldest: DateTime, newest: DateTime,
                                 fromIso: string -> Option<DateTime>)
    requires ExtendsParseIso(fromIso)
    requires rows != [] && rows[0] == SerializedRow(first) && rows[|rows| - 1] == SerializedRow(last)
    requires ValidDateTime(oldest) && Get(first, "timestamp") == Some(VDateTime(oldest))
    requires ValidDateTime(newest) && Get(last, "timestamp") == Some(VDateTime(newest))
    ensures FormatCandleResponse(rows, fromIso)
      == Success(Response(Some(Strftime(oldest)), Some(Strftime(newest)), |rows|, "candles", rows))
  {
    SerializedStampDisplays(first, oldest, fromIso);
    SerializedStampDisplays(last, newest, fromIso);
    RowsResponseOfBounds(rows, "candles", fromIso, VStr(DateTimeIsoFormat(oldest)),
                         VStr(DateTimeIsoFormat(newest)), Some(Strftime(oldest)), Some(Strftime(newest)));
  }

  /** A row's datetime `timestamp`, once serialised, is displayed as its own second. */
  lemma SerializedStampDisplays(row: Row, t: DateTime, fromIso: string -> Option<DateTime>)
    requires ValidDateTime(t) && Get(row, "timestamp") == Some(VDateTime(t)) && ExtendsParseIso(fromIso)
    ensures Get(SerializedRow(row), "timestamp") == Some(VStr(DateTimeIsoFormat(t)))
    ensures FormatTimestamp(VStr(DateTimeIsoFormat(t)), fromIso) == Success(Some(Strftime(t)))
  {
    SerializedDateTimeDisplays(t, fromIso);
  }

  /** The shared envelope of rows whose boundary timestamps format without error. */
  lemma RowsResponseOfBounds(rows: seq<Row>, rowsKey: string, fromIso: string -> Option<DateTime>,
                             first: Value, last: Value, start: Option<string>, end: Option<string>)
    requires rows != []
    requires Get(rows[0], "timestamp") == Some(first) && Get(rows[|rows| - 1], "timestamp") == Some(last)
    requires FormatTimestamp(first, fromIso) == Success(start) && FormatTimestamp(last, fromIso) == Success(end)
    ensures RowsResponse(rows, rowsKey, fromIso) == Success(Response(start, end, |rows|, rowsKey, rows))
  {
  }

  predicate IsEmaAlias(k: string) {
    k == "_20_ema" || k == "_50_ema" || k == "_100_ema" || k == "_200_ema"
  }

  /**
   * `{**row, "_20_ema": row.get("20_ema"), ...}`: the row's fields in their order, then
   * the four copies (an alias key already present keeps its place and takes the copy).
   */
  function WithEmaAliases(row: Row): Row {
    var r1 := Set(row, "_20_ema", GetOrNull(row, "20_ema"));
    var r2 := Set(r1, "_50_ema", GetOrNull(row, "50_ema"));
    var r3 := Set(r2, "_100_ema", GetOrNull(row, "100_ema"));
    Set(r3, "_200_ema", GetOrNull(row, "200_ema"))
  }

  /**
   * Every key of the row keeps its value unless it is one of the four aliases; each
   * alias holds the value of its EMA column, or null when the row has none; no other
   * key is added.
   */
  lemma EmaAliasFields(row: Row)
    ensures var r := WithEmaAliases(row);
      && (forall k :: !IsEmaAlias(k) ==> Get(r, k) == Get(row, k))
      && Get(r, "_20_ema") == Some(GetOrNull(row, "20_ema"))
      && Get(r, "_50_ema") == Some(GetOrNull(row, "50_ema"))
      && Get(r, "_100_ema") == Some(GetOrNull(row, "100_ema"))
      && Get(r, "_200_ema") == Some(GetOrNull(row, "200_ema"))
      && (forall k :: k in Keys(r) <==> k in Keys(row) || IsEmaAlias(k))
  {
    EmaAliasValues(row);
    EmaAliasKeys(row);
  }

  lemma EmaAliasValues(row: Row)
    ensures var r := WithEmaAliases(row);
      && (forall k :: !IsEmaAlias(k) ==> Get(r, k) == Get(row, k))
      && Get(r, "_20_ema") == Some(GetOrNull(row, "20_ema"))
      && Get(r, "_50_ema") == Some(GetOrNull(row, "50_ema"))
      && Get(r, "_100_ema") == Some(GetOrNull(row, "100_ema"))
      && Get(r, "_200_ema") == Some(GetOrNull(row, "200_ema"))
  {
  }

  lemma EmaAliasKeys(row: Row)
    ensures forall k :: k in Keys(WithEmaAliases(row)) <==> k in Keys(row) || IsEmaAlias(k)
  {
    var r1 := Set(row, "_20_ema", GetOrNull(row, "20_ema"));
    var r2 := Set(r1, "_50_ema", GetOrNull(row, "50_ema"));
    var r3 := Set(r2, "_100_ema", GetOrNull(row, "100_ema"));
    SetKeys(row, "_20_ema", GetOrNull(row, "20_ema"));
    SetKeys(r1, "_50_ema", GetOrNull(row, "50_ema"));
    SetKeys(r2, "_100_ema", GetOrNull(row, "100_ema"));
    SetKeys(r3, "_200_ema", GetOrNull(row, "200_ema"));
  }

  /** The rows of `format_ema_response`: each input row with its aliases, in order. */
  function EmaRows(rows: seq<Row>): (r: seq<Row>)
    ensures |r| == |rows|
  {
    if |rows| == 0 then [] else EmaRows(rows[..|rows| - 1]) + [WithEmaAliases(rows[|rows| - 1])]
  }

  /** One output row per input row, in the same order. */
  lemma {:induction false} EmaRowsInOrder(rows: seq<Row>, i: nat)
    requires i < |rows|
    ensures EmaRows(rows)[i] == WithEmaAliases(rows[i])
  {
    if i < |rows| - 1 {
      EmaRowsInOrder(rows[..|rows| - 1], i);
    }
  }

  lemma EmaRowsSnoc(rows: seq<Row>, i: nat)
    requires i < |rows|
    ensures EmaRows(rows[..i + 1]) == EmaRows(rows[..i]) + [WithEmaAliases(rows[i])]
  {
    assert rows[..i + 1][..i] == rows[..i];
  }

  /** The loop of `format_ema_response` that fills `normalized_rows`. */
  method AliasRows(rows: seq<Row>) returns (normalized: seq<Row>)
    ensures normalized == EmaRows(rows)
  {
    normalized := [];
    for i := 0 to |rows|
      invariant normalized == EmaRows(rows[..i])
    {
      EmaRowsSnoc(rows, i);
      normalized := normalized + [WithEmaAliases(rows[i])];
    }
    assert rows[..|rows|] == rows;
  }

  /**
   * `format_ema_response`: the bounds are read from the rows as given, then every row is
   * copied with its aliases, in order; the envelope is otherwise the shared one.
   */
  method FormatEmaResponse(rows: seq<Row>, fromIso: string -> Option<DateTime>) returns (r: Result<Response, Error>)
    ensures var base := RowsResponse(rows, "ema", fromIso);
      && (r.Failure? <==> base.Failure?)
      && (r.Failure? ==> r.error == base.error)
      && (r.Success? ==> r.value == base.value.(rows := EmaRows(rows)))
  {
    var bounds := BoundaryTimestamps(rows);
    if bounds.Failure? {
      return Failure(bounds.error);
    }
    var normalized := AliasRows(rows);
    var start := FormatTimestamp(bounds.value.0, fromIso);
    if start.Failure? {
      return Failure(start.error);
    }
    var end := FormatTimestamp(bounds.value.1, fromIso);
    if end.Failure? {
      return Failure(end.error);
    }
    r := Success(Response(start.value, end.value, |rows|, "ema", normalized));
  }
}
