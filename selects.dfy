/**
 * The SELECT clause of each repository. The candle repository names a fixed column
 * list around its timestamp column; the footprint repository appends the aliased
 * exchange column when one is configured; the CVD and EMA repositories write the
 * optional exchange entry in place and then filter out the missing entry.
 */
module SelectLists {
  import opened Wrappers
  import opened Identifiers
  import opened RepositoryConfig
  import opened QueryBuilder

  const CandleTable := "tradingview_candle_data"
  const FootprintTable := "tradingview_volume_footprint"
  const CvdTable := "tradingview_candle_cvd"
  const EmaTable := "tradingview_ema"

  /** `<column> AS <alias>`. */
  function Alias(column: string, alias: string): string {
    column + " AS " + alias
  }

  /** The aliased exchange column, when the repository has one. */
  function ExchangeEntry(c: Config): Option<string> {
    if c.exchangeColumn.Some? then Some(Alias(c.exchangeColumn.value, "exchange")) else None
  }

  /** `[col for col in columns if col is not None]`. */
  function Present(columns: seq<Option<string>>): (r: seq<string>)
    ensures |r| <= |columns|
    ensures forall x :: x in r <==> Some(x) in columns
  {
    if |columns| == 0 then []
    else
      var rest := Present(columns[1..]);
      assert forall x :: Some(x) in columns <==> columns[0] == Some(x) || Some(x) in columns[1..] by {
        assert columns == [columns[0]] + columns[1..];
      }
      if columns[0].Some? then [columns[0].value] + rest else rest
  }

  lemma {:induction false} PresentConcat(a: seq<Option<string>>, b: seq<Option<string>>)
    ensures Present(a + b) == Present(a) + Present(b)
  {
    if |a| > 0 {
      assert (a + b)[0] == a[0] && (a + b)[1..] == a[1..] + b;
      PresentConcat(a[1..], b);
    } else {
      assert a + b == b;
    }
  }

  function Somes(xs: seq<string>): seq<Option<string>> {
    seq(|xs|, i requires 0 <= i < |xs| => Some(xs[i]))
  }

  lemma {:induction false} PresentOfSomes(xs: seq<string>)
    ensures Present(Somes(xs)) == xs
  {
    if |xs| > 0 {
      assert Somes(xs)[1..] == Somes(xs[1..]);
      PresentOfSomes(xs[1..]);
    }
  }

  function OptionList(o: Option<string>): seq<string> {
    if o.Some? then [o.value] else []
  }

  /** Filtering a list with one optional entry keeps the fixed entries around it, in order. */
  lemma PresentAround(before: seq<string>, entry: Option<string>, after: seq<string>)
    ensures Present(Somes(before) + [entry] + Somes(after)) == before + OptionList(entry) + after
  {
    PresentConcat(Somes(before) + [entry], Somes(after));
    PresentConcat(Somes(before), [entry]);
    PresentOfSomes(before);
    PresentOfSomes(after);
    assert Present([entry]) == OptionList(entry) by {
      assert [entry][1..] == [];
    }
  }

  /** `SELECT time_frame, symbol, <timestamp column>, open, high, low, close, volume FROM <table>`. */
  function CandleColumns(c: Config): seq<string> {
    ["time_frame", "symbol", c.timestampColumn, "open", "high", "low", "close", "volume"]
  }

  function FootprintColumns(c: Config): (r: seq<string>)
    ensures |r| == 13 + |OptionList(ExchangeEntry(c))|
  {
    ["fp_id", Alias(c.timeFrameColumn, "time_frame"), Alias(c.symbolColumn, "symbol"),
     Alias(c.timestampColumn, "timestamp")]
    + (if c.exchangeColumn.Some? then [Alias(c.exchangeColumn.value, "exchange")] else [])
    + ["poc", "vah", "val", "volume_delta", "levels", "total_fp_volume", "volume_diff",
       "created_at", "updated_at"]
  }

  /**
   * The footprint list is its fixed columns with the exchange alias inserted after the
   * first four exactly when an exchange column is configured; the fixed columns are the
   * same whether or not it is.
   */
  lemma FootprintColumnsShape(c: Config)
    ensures var fixed := FootprintColumns(c.(exchangeColumn := None));
      && |fixed| == 13
      && FootprintColumns(c) == fixed[..4] + OptionList(ExchangeEntry(c)) + fixed[4..]
  {
    var fixed := FootprintColumns(c.(exchangeColumn := None));
    assert fixed[..4] == ["fp_id", Alias(c.timeFrameColumn, "time_frame"), Alias(c.symbolColumn, "symbol"),
                           Alias(c.timestampColumn, "timestamp")];
    assert fixed[4..] == ["poc", "vah", "val", "volume_delta", "levels", "total_fp_volume", "volume_diff",
                          "created_at", "updated_at"];
  }

  const CvdFixedTail := ["open", "high", "low", "close", "ohlc_color", "wick_color", "border_color"]
  const EmaFixedTail := ["20_ema", "50_ema", "100_ema", "200_ema", "date_time"]

  /** The aliased symbol, time-frame and timestamp columns, in the CVD and EMA order. */
  function KeyColumns(c: Config): seq<string> {
    [Alias(c.symbolColumn, "symbol"), Alias(c.timeFrameColumn, "time_frame"),
     Alias(c.timestampColumn, "timestamp")]
  }

  function CvdColumns(c: Config): seq<string> {
    Present([Some("cvd_id"), ExchangeEntry(c)] + Somes(KeyColumns(c) + CvdFixedTail))
  }

  function EmaColumns(c: Config): seq<string> {
    Present([Some("e_id"), ExchangeEntry(c)] + Somes(KeyColumns(c) + EmaFixedTail))
  }

  /**
   * The CVD list is its fixed columns with the exchange alias second exactly when an
   * exchange column is configured.
   */
  lemma CvdColumnsShape(c: Config)
    ensures CvdColumns(c) == ["cvd_id"] + OptionList(ExchangeEntry(c)) + KeyColumns(c) + CvdFixedTail
  {
    var fixedTail := KeyColumns(c) + CvdFixedTail;
    assert [Some("cvd_id"), ExchangeEntry(c)] + Somes(fixedTail) == Somes(["cvd_id"]) + [ExchangeEntry(c)] + Somes(fixedTail);
    PresentAround(["cvd_id"], ExchangeEntry(c), fixedTail);
  }

  lemma EmaColumnsShape(c: Config)
    ensures EmaColumns(c) == ["e_id"] + OptionList(ExchangeEntry(c)) + KeyColumns(c) + EmaFixedTail
  {
    var fixedTail := KeyColumns(c) + EmaFixedTail;
    assert [Some("e_id"), ExchangeEntry(c)] + Somes(fixedTail) == Somes(["e_id"]) + [ExchangeEntry(c)] + Somes(fixedTail);
    PresentAround(["e_id"], ExchangeEntry(c), fixedTail);
  }

  /** The exchange alias is selected exactly when an exchange column is configured, by every repository that can select it. */
  lemma ExchangeSelectedIffConfigured(c: Config)
    requires Sanitized(c)
    ensures c.exchangeColumn.Some? ==> Alias(c.exchangeColumn.value, "exchange") in FootprintColumns(c)
    ensures c.exchangeColumn.Some? ==> Alias(c.exchangeColumn.value, "exchange") in CvdColumns(c)
    ensures c.exchangeColumn.Some? ==> Alias(c.exchangeColumn.value, "exchange") in EmaColumns(c)
    ensures c.exchangeColumn.None? ==> |FootprintColumns(c)| == 13
    ensures c.exchangeColumn.None? ==> CvdColumns(c) == ["cvd_id"] + KeyColumns(c) + CvdFixedTail
    ensures c.exchangeColumn.None? ==> EmaColumns(c) == ["e_id"] + KeyColumns(c) + EmaFixedTail
  {
    CvdColumnsShape(c);
    EmaColumnsShape(c);
    if c.exchangeColumn.Some? {
      var e := Alias(c.exchangeColumn.value, "exchange");
      assert FootprintColumns(c)[4] == e;
      assert CvdColumns(c)[1] == e;
      assert EmaColumns(c)[1] == e;
    }
  }

  function CandleSelect(c: Config): string {
    SelectClause(CandleColumns(c), c.table)
  }

  function FootprintSelect(c: Config): string {
    SelectClause(FootprintColumns(c), c.table)
  }

  function CvdSelect(c: Config): string {
    SelectClause(CvdColumns(c), c.table)
  }

  function EmaSelect(c: Config): string {
    SelectClause(EmaColumns(c), c.table)
  }

  predicate ColumnsNoPercent(columns: seq<string>) {
    forall i :: 0 <= i < |columns| ==> NoPercent(columns[i])
  }

  lemma ColumnsNoPercentConcat(a: seq<string>, b: seq<string>)
    requires ColumnsNoPercent(a) && ColumnsNoPercent(b)
    ensures ColumnsNoPercent(a + b)
  {
    assert forall i :: 0 <= i < |a + b| ==> (a + b)[i] == if i < |a| then a[i] else b[i - |a|];
  }

  lemma AliasNoPercent(column: string, alias: string)
    requires IsIdentifier(column) && NoPercent(alias)
    ensures NoPercent(Alias(column, alias))
  {
    IdentifierNoPercent(column);
  }

  lemma KeyColumnsNoPercent(c: Config)
    requires Sanitized(c)
    ensures ColumnsNoPercent(KeyColumns(c))
  {
    AliasNoPercent(c.symbolColumn, "symbol");
    AliasNoPercent(c.timeFrameColumn, "time_frame");
    AliasNoPercent(c.timestampColumn, "timestamp");
  }

  lemma ExchangeEntryNoPercent(c: Config)
    requires Sanitized(c)
    ensures ColumnsNoPercent(OptionList(ExchangeEntry(c)))
  {
    if c.exchangeColumn.Some? {
      AliasNoPercent(c.exchangeColumn.value, "exchange");
    }
  }

  /** No SELECT clause carries a `%` of its own, so every placeholder of a statement is one of the bound ones. */
  lemma CandleSelectNoPercent(c: Config)
    requires Sanitized(c)
    ensures NoPercent(CandleSelect(c))
  {
    IdentifierNoPercent(c.timestampColumn);
    SelectClauseNoPercent(CandleColumns(c), c.table);
  }

  lemma FootprintSelectNoPercent(c: Config)
    requires Sanitized(c)
    ensures NoPercent(FootprintSelect(c))
  {
    var head := ["fp_id", Alias(c.timeFrameColumn, "time_frame"), Alias(c.symbolColumn, "symbol"),
                 Alias(c.timestampColumn, "timestamp")];
    var tail := ["poc", "vah", "val", "volume_delta", "levels", "total_fp_volume", "volume_diff",
                 "created_at", "updated_at"];
    AliasNoPercent(c.timeFrameColumn, "time_frame");
    AliasNoPercent(c.symbolColumn, "symbol");
    AliasNoPercent(c.timestampColumn, "timestamp");
    ExchangeEntryNoPercent(c);
    assert ColumnsNoPercent(head);
    assert ColumnsNoPercent(tail);
    ColumnsNoPercentConcat(head, OptionList(ExchangeEntry(c)));
    ColumnsNoPercentConcat(head + OptionList(ExchangeEntry(c)), tail);
    assert FootprintColumns(c) == head + OptionList(ExchangeEntry(c)) + tail;
    SelectClauseNoPercent(FootprintColumns(c), c.table);
  }

  lemma CvdSelectNoPercent(c: Config)
    requires Sanitized(c)
    ensures NoPercent(CvdSelect(c))
  {
    ExchangeEntryNoPercent(c);
    KeyColumnsNoPercent(c);
    assert ColumnsNoPercent(["cvd_id"]) && ColumnsNoPercent(CvdFixedTail);
    ColumnsNoPercentConcat(["cvd_id"], OptionList(ExchangeEntry(c)));
    ColumnsNoPercentConcat(["cvd_id"] + OptionList(ExchangeEntry(c)), KeyColumns(c));
    ColumnsNoPercentConcat(["cvd_id"] + OptionList(ExchangeEntry(c)) + KeyColumns(c), CvdFixedTail);
    CvdColumnsShape(c);
    SelectClauseNoPercent(CvdColumns(c), c.table);
  }

  lemma EmaSelectNoPercent(c: Config)
    requires Sanitized(c)
    ensures NoPercent(EmaSelect(c))
  {
    ExchangeEntryNoPercent(c);
    KeyColumnsNoPercent(c);
    assert ColumnsNoPercent(["e_id"]) && ColumnsNoPercent(EmaFixedTail);
    ColumnsNoPercentConcat(["e_id"], OptionList(ExchangeEntry(c)));
    ColumnsNoPercentConcat(["e_id"] + OptionList(ExchangeEntry(c)), KeyColumns(c));
    ColumnsNoPercentConcat(["e_id"] + OptionList(ExchangeEntry(c)) + KeyColumns(c), EmaFixedTail);
    EmaColumnsShape(c);
    SelectClauseNoPercent(EmaColumns(c), c.table);
  }
}
