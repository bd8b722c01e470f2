/**
 * `Repository`: the metadata a repository fixes at construction (its class, the
 * class's mapping table and the primary-key domain type) and the row mapper that
 * builds an instance from one result row.
 */
module Repositories {
  import opened Wrappers
  import opened Mapping

  /** The final fields of a constructed repository (the JDBC template is left out). */
  datatype Repository = Repository(clazz: ClassInfo, entityMappingTable: EntityMappingTable, pkDomainType: DomainType)

  /** The constructor: the primary key is the first id-flagged domain type of the class's table. */
  function NewRepository(clazz: ClassInfo): (r: Result<Repository, PersistenceException>)
    ensures r.Ok? ==> r.value.clazz == clazz && r.value.entityMappingTable == clazz.mappingTable
    ensures r.Ok? ==> exists k :: IsFirstIdAt(clazz.mappingTable.domainTypeList, k) &&
                                  clazz.mappingTable.domainTypeList[k] == r.value.pkDomainType
    ensures r.Err? <==> !HasId(clazz.mappingTable.domainTypeList)
    ensures r.Err? ==> r.error == NotFoundIdException
  {
    var table := clazz.mappingTable;
    var pk :- FirstIdDomainType(table.domainTypeList);
    Ok(Repository(clazz, table, pk))
  }

  /** Whether `field.set` accepts a value for the named field; Java's assignment rules are not modelled. */
  type Assignability = (string, Value) -> bool

  /** `createInstance`: the zero-argument constructor, or InstanceException. */
  function CreateInstance(clazz: ClassInfo): Result<Entity, PersistenceException> {
    if clazz.hasNoArgConstructor then Ok(Entity(clazz, clazz.initialFields)) else Err(InstanceException)
  }

  /** `getField`: the declared field of that name, or NotFoundFieldException. */
  function GetField(clazz: ClassInfo, name: string): Result<string, PersistenceException> {
    if clazz.DeclaresField(name) then Ok(name) else Err(NotFoundFieldException)
  }

  /** `getValue`: the row's value at the column, or InvalidFieldValueException. */
  function GetValue(resultSet: Row, columnName: string): Result<Value, PersistenceException> {
    if columnName in resultSet then Ok(resultSet[columnName]) else Err(InvalidFieldValueException)
  }

  /** `setField`: the instance with the field holding the value, or FieldSetValueException. */
  function SetField(instance: Entity, field: string, value: Value, assignable: Assignability): Result<Entity, PersistenceException> {
    if assignable(field, value) then Ok(instance.(fields := instance.fields[field := value]))
    else Err(FieldSetValueException)
  }

  /** The body of the `forEach` for one domain type: look the field up, read the column, assign. */
  function Assign(clazz: ClassInfo, instance: Entity, domainType: DomainType, resultSet: Row, assignable: Assignability): Result<Entity, PersistenceException> {
    var field :- GetField(clazz, domainType.name);
    var value :- GetValue(resultSet, domainType.columnName);
    SetField(instance, field, value, assignable)
  }

  /** The `forEach` over the domain types, in list order, stopping at the first exception. */
  function Populate(clazz: ClassInfo, instance: Entity, dts: seq<DomainType>, resultSet: Row, assignable: Assignability): Result<Entity, PersistenceException>
    decreases |dts|
  {
    if dts == [] then Ok(instance)
    else match Assign(clazz, instance, dts[0], resultSet, assignable)
      case Err(e) => Err(e)
      case Ok(next) => Populate(clazz, next, dts[1..], resultSet, assignable)
  }

  /** What `mapper` computes: create an instance, then populate every domain type of the class's table. */
  function MapRow(clazz: ClassInfo, resultSet: Row, assignable: Assignability): Result<Entity, PersistenceException> {
    var instance :- CreateInstance(clazz);
    Populate(clazz, instance, clazz.mappingTable.domainTypeList, resultSet, assignable)
  }

  /** `mapper`: builds the instance step by step, one domain type per loop iteration. */
  method Mapper(repository: Repository, resultSet: Row, assignable: Assignability) returns (r: Result<Entity, PersistenceException>)
    ensures r == MapRow(repository.clazz, resultSet, assignable)
  {
    var clazz := repository.clazz;
    var entityMappingTable := clazz.mappingTable;
    var created := CreateInstance(clazz);
    if created.Err? {
      return Err(created.error);
    }
    var instance := created.value;
    var dts := entityMappingTable.domainTypeList;
    var i := 0;
    while i < |dts|
      invariant 0 <= i <= |dts|
      invariant Populate(clazz, instance, dts[i..], resultSet, assignable) == MapRow(clazz, resultSet, assignable)
    {
      var domainType := dts[i];
      assert dts[i..][1..] == dts[i + 1..];
      var field := GetField(clazz, domainType.name);
      if field.Err? {
        return Err(field.error);
      }
      var value := GetValue(resultSet, domainType.columnName);
      if value.Err? {
        return Err(value.error);
      }
      var updated := SetField(instance, field.value, value.value, assignable);
      if updated.Err? {
        return Err(updated.error);
      }
      instance := updated.value;
      i := i + 1;
    }
    return Ok(instance);
  }

  /**
   * The exception the mapper raises on one domain type, checks taken in source
   * order: a missing field, then a missing column, then a refused assignment.
   */
  function Failure(clazz: ClassInfo, resultSet: Row, assignable: Assignability, d: DomainType): Option<PersistenceException> {
    if !clazz.DeclaresField(d.name) then Some(NotFoundFieldException)
    else if d.columnName !in resultSet then Some(InvalidFieldValueException)
    else if !assignable(d.name, resultSet[d.columnName]) then Some(FieldSetValueException)
    else None
  }

  /** `e` is raised by domain type `i` and by no domain type before it. */
  ghost predicate FirstFailureAt(clazz: ClassInfo, resultSet: Row, assignable: Assignability, dts: seq<DomainType>, i: int, e: PersistenceException) {
    && 0 <= i < |dts|
    && Failure(clazz, resultSet, assignable, dts[i]) == Some(e)
    && forall j :: 0 <= j < i ==> Failure(clazz, resultSet, assignable, dts[j]).None?
  }

  /** The field names the domain types assign. */
  ghost function Names(dts: seq<DomainType>): set<string> {
    set d | d in dts :: d.name
  }

  /** No two domain types name the same field (Java field names within a class are unique). */
  ghost predicate DistinctNames(dts: seq<DomainType>) {
    forall i, j :: 0 <= i < j < |dts| ==> dts[i].name != dts[j].name
  }

  lemma {:induction false} PopulateFailsAtFirstFailure(clazz: ClassInfo, instance: Entity, dts: seq<DomainType>, resultSet: Row, assignable: Assignability, e: PersistenceException)
    ensures Populate(clazz, instance, dts, resultSet, assignable).Ok? <==>
            forall j :: 0 <= j < |dts| ==> Failure(clazz, resultSet, assignable, dts[j]).None?
    ensures Populate(clazz, instance, dts, resultSet, assignable) == Err(e) <==>
            exists i :: FirstFailureAt(clazz, resultSet, assignable, dts, i, e)
    decreases |dts|
  {
    if dts != [] {
      var d := dts[0];
      match Failure(clazz, resultSet, assignable, d)
      case Some(e0) =>
        assert Populate(clazz, instance, dts, resultSet, assignable) == Err(e0);
        assert FirstFailureAt(clazz, resultSet, assignable, dts, 0, e0);
      case None =>
        var next := instance.(fields := instance.fields[d.name := resultSet[d.columnName]]);
        var rest := dts[1..];
        assert Populate(clazz, instance, dts, resultSet, assignable) == Populate(clazz, next, rest, resultSet, assignable);
        PopulateFailsAtFirstFailure(clazz, next, rest, resultSet, assignable, e);
        forall j | 0 <= j < |rest| ensures rest[j] == dts[j + 1] { }
        if exists i :: FirstFailureAt(clazz, resultSet, assignable, dts, i, e) {
          var i :| FirstFailureAt(clazz, resultSet, assignable, dts, i, e);
          assert i > 0;
          assert FirstFailureAt(clazz, resultSet, assignable, rest, i - 1, e);
        }
        if exists i :: FirstFailureAt(clazz, resultSet, assignable, rest, i, e) {
          var i :| FirstFailureAt(clazz, resultSet, assignable, rest, i, e);
          assert FirstFailureAt(clazz, resultSet, assignable, dts, i + 1, e);
        }
    }
  }

  lemma NamesCons(dts: seq<DomainType>)
    requires dts != []
    ensures Names(dts) == {dts[0].name} + Names(dts[1..])
  {
  }

  /** Populating past every domain type assigns each its column's value and touches nothing else. */
  lemma {:induction false} PopulateAssigns(clazz: ClassInfo, instance: Entity, dts: seq<DomainType>, resultSet: Row, assignable: Assignability, out: Entity)
    requires Populate(clazz, instance, dts, resultSet, assignable) == Ok(out)
    ensures out.cls == instance.cls
    ensures Names(dts) <= clazz.initialFields.Keys
    ensures out.fields.Keys == instance.fields.Keys + Names(dts)
    ensures forall f :: f in instance.fields && f !in Names(dts) ==> out.fields[f] == instance.fields[f]
    ensures DistinctNames(dts) ==> forall k :: 0 <= k < |dts| ==>
              dts[k].columnName in resultSet && out.fields[dts[k].name] == resultSet[dts[k].columnName]
    decreases |dts|
  {
    if dts == [] {
      assert Names(dts) == {};
    } else {
      var d, rest := dts[0], dts[1..];
      var next := instance.(fields := instance.fields[d.name := resultSet[d.columnName]]);
      assert Assign(clazz, instance, d, resultSet, assignable) == Ok(next);
      assert Populate(clazz, next, rest, resultSet, assignable) == Ok(out);
      PopulateAssigns(clazz, next, rest, resultSet, assignable, out);
      NamesCons(dts);
      if DistinctNames(dts) {
        assert DistinctNames(rest) by {
          forall i, j | 0 <= i < j < |rest| ensures rest[i].name != rest[j].name {
            assert rest[i] == dts[i + 1] && rest[j] == dts[j + 1];
          }
        }
        assert d.name !in Names(rest) by {
          forall x | x in rest ensures x.name != d.name {
            var j :| 0 <= j < |rest| && rest[j] == x;
            assert dts[j + 1] == x;
          }
        }
        forall k | 0 <= k < |dts|
          ensures dts[k].columnName in resultSet && out.fields[dts[k].name] == resultSet[dts[k].columnName]
        {
          if k > 0 {
            assert dts[k] == rest[k - 1];
          }
        }
      }
    }
  }

  /** Without a zero-argument constructor the mapper fails before any field is looked at. */
  lemma MapRowWithoutConstructor(clazz: ClassInfo, resultSet: Row, assignable: Assignability)
    requires !clazz.hasNoArgConstructor
    ensures MapRow(clazz, resultSet, assignable) == Err(InstanceException)
  {
  }

  /**
   * The mapper fails exactly with InstanceException when the class has no
   * zero-argument constructor, and otherwise with the exception of the first
   * domain type, in list order, that fails one of its three checks.
   */
  lemma MapRowFailure(clazz: ClassInfo, resultSet: Row, assignable: Assignability, e: PersistenceException)
    ensures MapRow(clazz, resultSet, assignable).Ok? <==>
              clazz.hasNoArgConstructor &&
              forall j :: 0 <= j < |clazz.mappingTable.domainTypeList| ==>
                Failure(clazz, resultSet, assignable, clazz.mappingTable.domainTypeList[j]).None?
    ensures MapRow(clazz, resultSet, assignable) == Err(e) <==>
              if !clazz.hasNoArgConstructor then e == InstanceException
              else exists i :: FirstFailureAt(clazz, resultSet, assignable, clazz.mappingTable.domainTypeList, i, e)
  {
    if clazz.hasNoArgConstructor {
      PopulateFailsAtFirstFailure(clazz, Entity(clazz, clazz.initialFields), clazz.mappingTable.domainTypeList, resultSet, assignable, e);
    }
  }

  /**
   * A mapped instance belongs to the class, holds exactly its declared fields,
   * holds in every field without a domain type the value the constructor gave it,
   * and, field names being distinct, holds in each domain type's field the row's
   * value at that domain type's column.
   */
  lemma MapRowSuccess(clazz: ClassInfo, resultSet: Row, assignable: Assignability, out: Entity)
    requires MapRow(clazz, resultSet, assignable) == Ok(out)
    ensures out.cls == clazz && out.WellFormed()
    ensures forall f :: f in clazz.initialFields && f !in Names(clazz.mappingTable.domainTypeList) ==>
              out.fields[f] == clazz.initialFields[f]
    ensures DistinctNames(clazz.mappingTable.domainTypeList) ==>
              var dts := clazz.mappingTable.domainTypeList;
              forall k :: 0 <= k < |dts| ==>
                dts[k].columnName in resultSet && dts[k].name in out.fields &&
                out.fields[dts[k].name] == resultSet[dts[k].columnName]
  {
    PopulateAssigns(clazz, Entity(clazz, clazz.initialFields), clazz.mappingTable.domainTypeList, resultSet, assignable, out);
  }
}
