/**
 * `EntityManagerImpl`: the CRUD facade. `find` and `remove` build a single
 * primary-key criterion and one statement; every operation hands the template
 * exactly one call, or none when it fails first.
 */
module EntityManager {
  import opened Wrappers
  import opened Mapping
  import opened Queries
  import opened Jdbc
  import Repositories

  /**
   * `c` is the criterion "primary-key column EQUALS the string of `v`", the
   * primary key being the first id-flagged domain type of `dts`.
   */
  ghost predicate IsPkCriterion(dts: seq<DomainType>, c: Criteria, v: Value) {
    && c.operator == EQUALS
    && ToJavaString(v) == Some(c.value)
    && exists k :: IsFirstIdAt(dts, k) && c.columnName == dts[k].columnName
  }

  /** The field exists on the object and holds a non-null value. */
  ghost predicate HoldsValue(entity: Entity, name: string) {
    name in entity.fields && entity.fields[name] != Null
  }

  /** The one-element criteria list that `find` and `remove` build. */
  function PkCriterias(pkDomainType: DomainType, value: string): Criterias {
    Criterias([Criteria(pkDomainType.columnName, value, EQUALS)])
  }

  /**
   * The select `find(clazz, id)` issues: over the class's mapping table, with one
   * primary-key criterion on `id.toString()`. No primary key gives
   * NotFoundIdException; a null id gives a NullPointerException.
   */
  function FindQuery(clazz: ClassInfo, id: Value): (r: Result<Query, PersistenceException>)
    ensures r.Err? <==> !HasId(clazz.mappingTable.domainTypeList) || id == Null
    ensures r.Err? ==> r.error == if !HasId(clazz.mappingTable.domainTypeList) then NotFoundIdException else NullPointerException
    ensures r.Ok? ==> r.value.Select? && r.value.table == clazz.mappingTable && |r.value.where.criterias| == 1
    ensures r.Ok? ==> IsPkCriterion(clazz.mappingTable.domainTypeList, r.value.where.criterias[0], id)
  {
    var entityMappingTable := clazz.mappingTable;
    var pkDomainType :- FirstIdDomainType(entityMappingTable.domainTypeList);
    match ToJavaString(id)
    case None => Err(NullPointerException)
    case Some(idString) => Ok(Select(entityMappingTable, PkCriterias(pkDomainType, idString)))
  }

  /**
   * `getFieldValue`: the string of the object's value in the named field. A field
   * the class does not declare and a null value (whose `toString` fails) both give
   * NotFoundIdException.
   */
  function GetFieldValue(entity: Entity, name: string): (r: Result<string, PersistenceException>)
    requires entity.WellFormed()
    ensures r.Ok? <==> HoldsValue(entity, name)
    ensures r.Ok? ==> ToJavaString(entity.fields[name]) == Some(r.value)
    ensures r.Err? ==> r.error == NotFoundIdException
  {
    if !entity.cls.DeclaresField(name) then Err(NotFoundIdException)
    else match ToJavaString(entity.fields[name])
      case None => Err(NotFoundIdException)
      case Some(s) => Ok(s)
  }

  /**
   * The delete `remove(entity)` issues: on the entity's table, with one criterion
   * on its primary-key column and the string of its primary-key field's value.
   */
  function RemoveQuery(entity: Entity): (r: Result<Query, PersistenceException>)
    requires entity.WellFormed()
    ensures r.Ok? <==> exists k :: IsFirstIdAt(entity.cls.mappingTable.domainTypeList, k) &&
                                   HoldsValue(entity, entity.cls.mappingTable.domainTypeList[k].name)
    ensures r.Err? ==> r.error == NotFoundIdException
    ensures r.Ok? ==> r.value.Delete? && r.value.tableName == entity.cls.mappingTable.tableName &&
                      |r.value.where.criterias| == 1
    ensures r.Ok? ==> var dts := entity.cls.mappingTable.domainTypeList;
                      exists k :: IsFirstIdAt(dts, k) && dts[k].name in entity.fields &&
                                  IsPkCriterion(dts, r.value.where.criterias[0], entity.fields[dts[k].name])
  {
    var entityMappingTable := entity.cls.mappingTable;
    var pkDomainType :- FirstIdDomainType(entityMappingTable.domainTypeList);
    var value :- GetFieldValue(entity, pkDomainType.name);
    Ok(Delete(entityMappingTable.tableName, PkCriterias(pkDomainType, value)))
  }

  class EntityManagerImpl {
    /** The manager's only state, fixed by the constructor. */
    const jdbcTemplate: JdbcTemplate

    constructor (jdbcTemplate: JdbcTemplate)
      ensures this.jdbcTemplate == jdbcTemplate
    {
      this.jdbcTemplate := jdbcTemplate;
    }

    /** `find`: one `queryForObject` with the primary-key select, mapped for the same class. */
    method Find(clazz: ClassInfo, id: Value, answer: Entity) returns (r: Result<Entity, PersistenceException>)
      modifies jdbcTemplate
      ensures FindQuery(clazz, id).Ok? ==>
                r == Ok(answer) &&
                jdbcTemplate.executed == old(jdbcTemplate.executed) + [QueryForObjectCall(FindQuery(clazz, id).value, clazz)]
      ensures FindQuery(clazz, id).Err? ==>
                r == Err(FindQuery(clazz, id).error) && jdbcTemplate.executed == old(jdbcTemplate.executed)
    {
      var select := FindQuery(clazz, id);
      if select.Err? {
        return Err(select.error);
      }
      var found := jdbcTemplate.QueryForObject(select.value, clazz, answer);
      return Ok(found);
    }

    /** `persist`: exactly one statement, the insert built from the entity. */
    method Persist(entity: Entity)
      modifies jdbcTemplate
      ensures jdbcTemplate.executed == old(jdbcTemplate.executed) + [ExecuteCall(Insert(entity))]
    {
      var insert := Insert(entity);
      jdbcTemplate.Execute(insert);
    }

    /** `remove`: exactly one delete by primary key, or nothing at all when the key cannot be read. */
    method Remove(entity: Entity) returns (r: Result<(), PersistenceException>)
      requires entity.WellFormed()
      modifies jdbcTemplate
      ensures RemoveQuery(entity).Ok? ==>
                r.Ok? && jdbcTemplate.executed == old(jdbcTemplate.executed) + [ExecuteCall(RemoveQuery(entity).value)]
      ensures RemoveQuery(entity).Err? ==>
                r == Err(RemoveQuery(entity).error) && jdbcTemplate.executed == old(jdbcTemplate.executed)
    {
      var delete := RemoveQuery(entity);
      if delete.Err? {
        return Err(delete.error);
      }
      jdbcTemplate.Execute(delete.value);
      return Ok(());
    }
  }

  /** `remove(entity)` deletes with exactly the criteria `find` selects with for the entity's own key. */
  lemma RemoveMatchesFind(entity: Entity)
    requires entity.WellFormed()
    requires RemoveQuery(entity).Ok?
    ensures FirstIdDomainType(entity.cls.mappingTable.domainTypeList).Ok?
    ensures var pk := FirstIdDomainType(entity.cls.mappingTable.domainTypeList).value;
            pk.name in entity.fields &&
            FindQuery(entity.cls, entity.fields[pk.name]) ==
              Ok(Select(entity.cls.mappingTable, RemoveQuery(entity).value.where))
  {
  }

  /** `find` issues different selects for different numeric ids. */
  lemma FindDistinguishesIds(clazz: ClassInfo, a: int, b: int)
    requires a != b
    requires HasId(clazz.mappingTable.domainTypeList)
    ensures FindQuery(clazz, Number(a)) != FindQuery(clazz, Number(b))
  {
    var qa, qb := FindQuery(clazz, Number(a)), FindQuery(clazz, Number(b));
    if qa == qb {
      assert Some(qa.value.where.criterias[0].value) == Some(LongToString(a));
      assert Some(qb.value.where.criterias[0].value) == Some(LongToString(b));
      LongToStringInjective(a, b);
    }
  }

  /**
   * An instance built by the row mapper can be removed unless the row's key column
   * is null, and its delete uses the criteria a `find` for that key selects with.
   */
  lemma MappedInstanceRemoval(clazz: ClassInfo, resultSet: Row, assignable: Repositories.Assignability, out: Entity)
    requires Repositories.MapRow(clazz, resultSet, assignable) == Ok(out)
    requires Repositories.DistinctNames(clazz.mappingTable.domainTypeList)
    requires HasId(clazz.mappingTable.domainTypeList)
    ensures out.WellFormed()
    ensures FirstIdDomainType(clazz.mappingTable.domainTypeList).Ok?
    ensures var pk := FirstIdDomainType(clazz.mappingTable.domainTypeList).value;
            && pk.columnName in resultSet
            && (RemoveQuery(out).Ok? <==> resultSet[pk.columnName] != Null)
            && (RemoveQuery(out).Ok? ==>
                  RemoveQuery(out) == Ok(Delete(clazz.mappingTable.tableName, FindQuery(clazz, resultSet[pk.columnName]).value.where)))
  {
    var dts := clazz.mappingTable.domainTypeList;
    Repositories.MapRowSuccess(clazz, resultSet, assignable, out);
    var pk := FirstIdDomainType(dts).value;
    var k :| IsFirstIdAt(dts, k) && dts[k] == pk;
    assert out.fields[dts[k].name] == resultSet[dts[k].columnName];
  }
}
