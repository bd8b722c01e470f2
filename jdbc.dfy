/**
 * The JDBC collaborator, reduced to a ghost log of the calls it receives. What the
 * database does with a statement is outside the model.
 */
module Jdbc {
  import opened Mapping
  import opened Queries

  /** A call received by the template; a query stands for its `toSql()`. */
  datatype Call =
    | ExecuteCall(sql: Query)
    | QueryForObjectCall(sql: Query, rowMapper: ClassInfo)

  class JdbcTemplate {
    /** Every call received so far, oldest first. */
    ghost var executed: seq<Call>

    constructor ()
      ensures executed == []
    {
      executed := [];
    }

    /** `execute(sql)`: runs a statement that returns nothing. */
    method Execute(sql: Query)
      modifies this
      ensures executed == old(executed) + [ExecuteCall(sql)]
    {
      executed := executed + [ExecuteCall(sql)];
    }

    /**
     * `queryForObject(sql, rowMapper)`: runs a query and returns the object the row
     * mapper builds from its row; that object, produced by the database, is `answer`.
     */
    method QueryForObject(sql: Query, rowMapper: ClassInfo, answer: Entity) returns (r: Entity)
      modifies this
      ensures executed == old(executed) + [QueryForObjectCall(sql, rowMapper)]
      ensures r == answer
    {
      executed := executed + [QueryForObjectCall(sql, rowMapper)];
      r := answer;
    }
  }
}
