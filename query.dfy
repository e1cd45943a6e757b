/**
 * Construction of the parameterised statement every `fetch_*` sends: a list of SQL
 * fragments joined by spaces and a parallel list of bound parameters. Only sanitised
 * identifiers are interpolated; every caller-supplied value is bound to a `%s`.
 */
module QueryBuilder {
  import opened Wrappers
  import opened Errors
  import opened Identifiers
  import opened TimeFrames
  import opened RepositoryConfig

  datatype Param = PStr(s: string) | PInt(i: int)

  /** A statement and its bound parameters, as handed to the database gateway. */
  datatype Query = Query(sql: string, params: seq<Param>)

  const MaxLimit := 1000

  /** `max(1, min(limit, 1000))`. */
  function ClampLimit(limit: int): (r: int)
    ensures 1 <= r <= MaxLimit
    ensures 1 <= limit <= MaxLimit ==> r == limit
    ensures limit < 1 ==> r == 1
    ensures limit > MaxLimit ==> r == MaxLimit
  {
    var upper := if limit < MaxLimit then limit else MaxLimit;
    if upper < 1 then 1 else upper
  }

  /** `sep.join(parts)`. */
  function Join(parts: seq<string>, sep: string): string {
    if |parts| == 0 then ""
    else if |parts| == 1 then parts[0]
    else Join(parts[..|parts| - 1], sep) + sep + parts[|parts| - 1]
  }

  /** The number of `%s` placeholders the driver substitutes in `s`. */
  function Placeholders(s: string): nat {
    if |s| < 2 then 0
    else (if s[0] == '%' && s[1] == 's' then 1 else 0) + Placeholders(s[1..])
  }

  predicate NoPercent(s: string) {
    forall i :: 0 <= i < |s| ==> s[i] != '%'
  }

  lemma IdentifierNoPercent(s: string)
    requires IsIdentifier(s)
    ensures NoPercent(s)
  {
  }

  lemma {:induction false} NoPercentNoPlaceholders(s: string)
    requires NoPercent(s)
    ensures Placeholders(s) == 0
  {
    if |s| >= 2 {
      NoPercentNoPlaceholders(s[1..]);
    }
  }

  /** Placeholders add up across a concatenation, plus one if a `%` meets an `s` at the seam. */
  lemma {:induction false} PlaceholdersConcat(a: string, b: string)
    ensures Placeholders(a + b) ==
      Placeholders(a) + Placeholders(b) + if |a| > 0 && |b| > 0 && a[|a| - 1] == '%' && b[0] == 's' then 1 else 0
  {
    if |a| == 0 {
      assert a + b == b;
    } else if |a| == 1 {
      if |b| > 0 {
        assert (a + b)[1..] == b;
      }
    } else {
      assert (a + b)[1..] == a[1..] + b;
      PlaceholdersConcat(a[1..], b);
    }
  }

  /** Joining with a space never creates or destroys a placeholder. */
  lemma PlaceholdersSpaceSeam(a: string, b: string)
    ensures Placeholders(a + " " + b) == Placeholders(a) + Placeholders(b)
  {
    PlaceholdersConcat(a, " ");
    PlaceholdersConcat(a + " ", b);
    assert (a + " ")[|a + " "| - 1] == ' ';
  }

  function SumPlaceholders(parts: seq<string>): nat {
    if |parts| == 0 then 0 else SumPlaceholders(parts[..|parts| - 1]) + Placeholders(parts[|parts| - 1])
  }

  lemma {:induction false} PlaceholdersJoin(parts: seq<string>)
    ensures Placeholders(Join(parts, " ")) == SumPlaceholders(parts)
  {
    if |parts| == 1 {
      assert parts[..0] == [];
    } else if |parts| > 1 {
      PlaceholdersJoin(parts[..|parts| - 1]);
      PlaceholdersSpaceSeam(Join(parts[..|parts| - 1], " "), parts[|parts| - 1]);
    }
  }

  lemma {:induction false} SumPlaceholdersConcat(a: seq<string>, b: seq<string>)
    ensures SumPlaceholders(a + b) == SumPlaceholders(a) + SumPlaceholders(b)
  {
    if |b| == 0 {
      assert a + b == a;
    } else {
      assert (a + b)[..|a + b| - 1] == a + b[..|b| - 1];
      SumPlaceholdersConcat(a, b[..|b| - 1]);
    }
  }

  lemma {:induction false} NoPercentJoin(parts: seq<string>, sep: string)
    requires NoPercent(sep) && forall i :: 0 <= i < |parts| ==> NoPercent(parts[i])
    ensures NoPercent(Join(parts, sep))
  {
    if |parts| > 1 {
      NoPercentJoin(parts[..|parts| - 1], sep);
    }
  }

  /** `SELECT <columns joined by ", "> FROM <table>`. */
  function SelectClause(columns: seq<string>, table: string): string {
    "SELECT " + Join(columns, ", ") + " FROM " + table
  }

  lemma SelectClauseNoPercent(columns: seq<string>, table: string)
    requires IsIdentifier(table) && forall i :: 0 <= i < |columns| ==> NoPercent(columns[i])
    ensures NoPercent(SelectClause(columns, table))
  {
    NoPercentJoin(columns, ", ");
  }

  /** The placeholder the driver substitutes a bound parameter for. */
  const Hole := "%s"

  /** A fragment ending in the placeholder, with no `%` before it, binds exactly one parameter. */
  lemma HoleBindsOne(prefix: string)
    requires NoPercent(prefix)
    ensures Placeholders(prefix + Hole) == 1
  {
    PlaceholdersConcat(prefix, Hole);
    NoPercentNoPlaceholders(prefix);
  }

  /** `WHERE <symbol column> = %s AND <time-frame column> = %s`. */
  function WhereClause(c: Config): string {
    "WHERE " + c.symbolColumn + " = " + Hole + " AND " + c.timeFrameColumn + " = " + Hole
  }

  /** `AND <column> <op> %s`: one optional condition. */
  function Condition(column: string, op: string): string {
    "AND " + column + " " + op + " " + Hole
  }

  function OrderClause(c: Config): string {
    "ORDER BY " + c.timestampColumn + " DESC"
  }

  const LimitClause := "LIMIT " + Hole

  /** An optional condition: its SQL fragment and the one value bound to it. */
  datatype Filter = Filter(clause: string, bound: Param)

  /** The optional conditions in the source's order: exchange, lower bound, upper bound. */
  function Filters(c: Config, exchange: Option<string>, start: Option<string>, end: Option<string>): seq<Filter>
    requires exchange.Some? ==> c.exchangeColumn.Some?
  {
    (if exchange.Some? then [Filter(Condition(c.exchangeColumn.value, "="), PStr(exchange.value))] else [])
    + (if start.Some? then [Filter(Condition(c.timestampColumn, ">="), PStr(start.value))] else [])
    + (if end.Some? then [Filter(Condition(c.timestampColumn, "<="), PStr(end.value))] else [])
  }

  function Clauses(fs: seq<Filter>): seq<string> {
    seq(|fs|, i requires 0 <= i < |fs| => fs[i].clause)
  }

  function Bounds(fs: seq<Filter>): seq<Param> {
    seq(|fs|, i requires 0 <= i < |fs| => fs[i].bound)
  }

  function OptionalBind(v: Option<string>): seq<Param> {
    if v.Some? then [PStr(v.value)] else []
  }

  /**
   * Specification of the statement a `fetch_*` method sends for a repository configured
   * with `c` whose SELECT clause is `select`; the exchange filter is rejected, before any
   * statement exists, when the repository has no exchange column.
   */
  function QueryFor(c: Config, select: string, symbol: string, timeFrame: string, limit: int,
                    exchange: Option<string>, start: Option<string>, end: Option<string>): (r: Result<Query, Error>)
    ensures r.Failure? <==> exchange.Some? && c.exchangeColumn.None?
    ensures r.Failure? ==> r.error == ExchangeFilterUnavailable
  {
    if exchange.Some? && c.exchangeColumn.None? then Failure(ExchangeFilterUnavailable)
    else
      var fs := Filters(c, exchange, start, end);
      Success(Query(
        Join([select, WhereClause(c)] + Clauses(fs) + [OrderClause(c), LimitClause], " "),
        [PStr(symbol), PStr(NormalizeTimeFrame(timeFrame))] + Bounds(fs) + [PInt(ClampLimit(limit))]))
  }

  /**
   * The bound parameters, in order: the symbol, the normalised time frame, then the
   * exchange, the lower and the upper timestamp bound, each only when given, and last
   * the clamped limit.
   */
  lemma ParamsInOrder(c: Config, select: string, symbol: string, timeFrame: string, limit: int,
                      exchange: Option<string>, start: Option<string>, end: Option<string>)
    requires exchange.Some? ==> c.exchangeColumn.Some?
    ensures QueryFor(c, select, symbol, timeFrame, limit, exchange, start, end).Success?
    ensures QueryFor(c, select, symbol, timeFrame, limit, exchange, start, end).value.params ==
      [PStr(symbol), PStr(NormalizeTimeFrame(timeFrame))]
      + OptionalBind(exchange) + OptionalBind(start) + OptionalBind(end)
      + [PInt(ClampLimit(limit))]
  {
    var fs := Filters(c, exchange, start, end);
    assert Bounds(fs) == OptionalBind(exchange) + OptionalBind(start) + OptionalBind(end);
  }

  lemma ConditionBindsOne(column: string, op: string)
    requires IsIdentifier(column) && NoPercent(op)
    ensures Placeholders(Condition(column, op)) == 1
  {
    IdentifierNoPercent(column);
    HoleBindsOne("AND " + column + " " + op + " ");
  }

  lemma {:induction false} SumOfOnes(parts: seq<string>)
    requires forall i :: 0 <= i < |parts| ==> Placeholders(parts[i]) == 1
    ensures SumPlaceholders(parts) == |parts|
  {
    if |parts| > 0 {
      SumOfOnes(parts[..|parts| - 1]);
    }
  }

  lemma FilterClausesBindOne(c: Config, exchange: Option<string>, start: Option<string>, end: Option<string>)
    requires Sanitized(c) && (exchange.Some? ==> c.exchangeColumn.Some?)
    ensures SumPlaceholders(Clauses(Filters(c, exchange, start, end))) == |Filters(c, exchange, start, end)|
  {
    var fs := Filters(c, exchange, start, end);
    forall i | 0 <= i < |fs| ensures Placeholders(Clauses(fs)[i]) == 1 {
      if exchange.Some? {
        ConditionBindsOne(c.exchangeColumn.value, "=");
      }
      ConditionBindsOne(c.timestampColumn, ">=");
      ConditionBindsOne(c.timestampColumn, "<=");
    }
    SumOfOnes(Clauses(fs));
  }

  lemma WhereClauseBindsTwo(c: Config)
    requires Sanitized(c)
    ensures Placeholders(WhereClause(c)) == 2
  {
    IdentifierNoPercent(c.symbolColumn);
    IdentifierNoPercent(c.timeFrameColumn);
    var first := "WHERE " + c.symbolColumn + " = ";
    var second := " AND " + c.timeFrameColumn + " = ";
    assert WhereClause(c) == (first + Hole) + (second + Hole);
    HoleBindsOne(first);
    HoleBindsOne(second);
    PlaceholdersConcat(first + Hole, second + Hole);
  }

  lemma SumPlaceholdersPair(a: string, b: string)
    ensures SumPlaceholders([a, b]) == Placeholders(a) + Placeholders(b)
  {
    assert [a, b][..1] == [a];
    assert [a][..0] == [];
    assert SumPlaceholders([a]) == Placeholders(a);
  }

  /** The fragment list of a statement binds two parameters, one per filter, then one more. */
  lemma FragmentsPlaceholders(c: Config, select: string, fs: seq<Filter>, exchange: Option<string>,
                              start: Option<string>, end: Option<string>)
    requires Sanitized(c) && NoPercent(select) && (exchange.Some? ==> c.exchangeColumn.Some?)
    requires fs == Filters(c, exchange, start, end)
    ensures Placeholders(Join([select, WhereClause(c)] + Clauses(fs) + [OrderClause(c), LimitClause], " "))
            == 3 + |fs|
  {
    var head, tail := [select, WhereClause(c)], [OrderClause(c), LimitClause];
    PlaceholdersJoin(head + Clauses(fs) + tail);
    SumPlaceholdersConcat(head + Clauses(fs), tail);
    SumPlaceholdersConcat(head, Clauses(fs));
    FilterClausesBindOne(c, exchange, start, end);
    SumPlaceholdersPair(select, WhereClause(c));
    SumPlaceholdersPair(OrderClause(c), LimitClause);
    NoPercentNoPlaceholders(select);
    WhereClauseBindsTwo(c);
    IdentifierNoPercent(c.timestampColumn);
    NoPercentNoPlaceholders(OrderClause(c));
    HoleBindsOne("LIMIT ");
  }

  /**
   * Every `%s` in the statement has a parameter and every parameter a `%s`: the counts
   * agree whenever the SELECT clause carries no `%` of its own.
   */
  lemma PlaceholdersMatchParams(c: Config, select: string, symbol: string, timeFrame: string, limit: int,
                                exchange: Option<string>, start: Option<string>, end: Option<string>)
    requires Sanitized(c) && NoPercent(select)
    ensures var q := QueryFor(c, select, symbol, timeFrame, limit, exchange, start, end);
      q.Success? ==> Placeholders(q.value.sql) == |q.value.params|
  {
    if !(exchange.Some? && c.exchangeColumn.None?) {
      var fs := Filters(c, exchange, start, end);
      FragmentsPlaceholders(c, select, fs, exchange, start, end);
    }
  }

  /**
   * The statement text depends on which optional values are present, never on the
   * values themselves: nothing a caller passes is interpolated into the SQL.
   */
  lemma SqlIndependentOfValues(c: Config, select: string, limit1: int, limit2: int,
                               symbol1: string, symbol2: string, timeFrame1: string, timeFrame2: string,
                               exchange1: Option<string>, exchange2: Option<string>,
                               start1: Option<string>, start2: Option<string>,
                               end1: Option<string>, end2: Option<string>)
    requires exchange1.Some? == exchange2.Some? && start1.Some? == start2.Some? && end1.Some? == end2.Some?
    requires exchange1.Some? ==> c.exchangeColumn.Some?
    ensures QueryFor(c, select, symbol1, timeFrame1, limit1, exchange1, start1, end1).value.sql ==
            QueryFor(c, select, symbol2, timeFrame2, limit2, exchange2, start2, end2).value.sql
  {
    assert Clauses(Filters(c, exchange1, start1, end1)) == Clauses(Filters(c, exchange2, start2, end2));
  }

  /**
   * `sql_parts` and `params` as built in each `fetch_*`: two leading fragments and two
   * parameters, then one append to each list per optional filter, then the ordering,
   * the limit fragment and the limit parameter.
   */
  method BuildQuery(c: Config, select: string, symbol: string, timeFrame: string, limit: int,
                    exchange: Option<string>, start: Option<string>, end: Option<string>)
    returns (r: Result<Query, Error>)
    ensures r == QueryFor(c, select, symbol, timeFrame, limit, exchange, start, end)
  {
    var clamped := ClampLimit(limit);
    var normalized := NormalizeTimeFrame(timeFrame);
    var parts := [select, WhereClause(c)];
    var params := [PStr(symbol), PStr(normalized)];
    ghost var fs: seq<Filter> := [];
    if exchange.Some? {
      if c.exchangeColumn.None? {
        return Failure(ExchangeFilterUnavailable);
      }
      parts := parts + [Condition(c.exchangeColumn.value, "=")];
      params := params + [PStr(exchange.value)];
      fs := fs + [Filter(Condition(c.exchangeColumn.value, "="), PStr(exchange.value))];
    }
    if start.Some? {
      parts := parts + [Condition(c.timestampColumn, ">=")];
      params := params + [PStr(start.value)];
      fs := fs + [Filter(Condition(c.timestampColumn, ">="), PStr(start.value))];
    }
    if end.Some? {
      parts := parts + [Condition(c.timestampColumn, "<=")];
      params := params + [PStr(end.value)];
      fs := fs + [Filter(Condition(c.timestampColumn, "<="), PStr(end.value))];
    }
    parts := parts + [OrderClause(c)];
    parts := parts + [LimitClause];
    params := params + [PInt(clamped)];
    assert fs == Filters(c, exchange, start, end);
    assert parts == [select, WhereClause(c)] + Clauses(fs) + [OrderClause(c), LimitClause];
    assert params == [PStr(symbol), PStr(normalized)] + Bounds(fs) + [PInt(clamped)];
    r := Success(Query(Join(parts, " "), params));
  }
}
