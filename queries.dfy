/**
 * The criteria model and the statements the query builders produce. The builders'
 * SQL text is not modelled: a statement is identified by what it was built from.
 */
module Queries {
  import opened Mapping

  datatype Operators = EQUALS

  /** One predicate of a WHERE clause: column, value as a string, operator. */
  datatype Criteria = Criteria(columnName: string, value: string, operator: Operators)

  /** The AND-combined predicates, in order. */
  datatype Criterias = Criterias(criterias: seq<Criteria>)

  datatype Query =
    | Select(table: EntityMappingTable, where: Criterias)   // SelectQueryBuilder.of(table, criterias)
    | Insert(entity: Entity)                                 // InsertQueryBuilder.from(entity)
    | Delete(tableName: string, where: Criterias)           // DeleteQueryBuilder.of(tableName, criterias)
}
