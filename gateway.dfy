/**
 * The database gateway the repositories talk to. The connection, the driver and the
 * server are outside the model: what the database answers to a statement is a fixed
 * function of the statement and its parameters, and the client keeps a log of every
 * statement it has been asked to run, so that "nothing was sent" can be stated.
 */
module Gateway {
  import opened Wrappers
  import opened Errors
  import opened Values
  import opened QueryBuilder

  class DatabaseClient {
    /** The rows the database returns for a statement, or `None` when the driver raises. */
    const answer: (string, seq<Param>) -> Option<seq<Row>>
    /** Every statement handed to `FetchAll`, oldest first. */
    var sent: seq<Query>

    constructor(answer: (string, seq<Param>) -> Option<seq<Row>>)
      ensures this.answer == answer && sent == []
    {
      this.answer := answer;
      sent := [];
    }

    /**
     * `fetch_all(sql, params)`: runs the statement and returns a fresh list holding the
     * rows, in the order the database sent them.
     */
    method FetchAll(sql: string, params: seq<Param>) returns (r: Result<array<Row>, Error>)
      modifies this
      ensures sent == old(sent) + [Query(sql, params)]
      ensures answer(sql, params).None? ==> r == Failure(DataAccess)
      ensures answer(sql, params).Some? ==>
        r.Success? && fresh(r.value) && r.value[..] == answer(sql, params).value
    {
      sent := sent + [Query(sql, params)];
      match answer(sql, params)
      case None =>
        r := Failure(DataAccess);
      case Some(rows) =>
        var a := new Row[|rows|](i requires 0 <= i < |rows| => rows[i]);
        r := Success(a);
    }
  }
}
