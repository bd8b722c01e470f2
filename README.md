# A Dafny model of the jpa-query-builder ORM core

This project models three pieces of a small Java object-relational mapper, with
Java reflection and JDBC replaced by plain data:

- **Database resolution** (`Database.from`): the `Database` enum is a closed
  registry. Resolution scans the variants in declaration order and returns the
  first one whose product-name matcher accepts the name. If none does, it fails
  with `NotFoundDatabase`. The only variant, `H2`, matches by exact equality with
  its own name and supplies the H2 dialect.
- **Repository metadata and the row mapper** (`Repository`): construction picks
  the primary-key `DomainType`, the first one flagged `isExistsId`. `mapper`
  creates an instance with the zero-argument constructor. It then walks the
  class's domain types in order, and for each one looks up the field, reads the
  row's column and assigns it. Each failure raises its own exception.
- **Entity-manager statements** (`EntityManagerImpl`): `find` builds one select
  with a single primary-key criterion. `persist` executes one insert. `remove`
  reads the entity's primary-key value and executes one delete with a single
  criterion. The JDBC template is a class whose ghost log records every call it
  receives, so each operation's contract says exactly which call it makes and
  that it makes no other.

Modules: `Wrappers` (Option, Result), `Streams` (`filter(p).findFirst()` as
`FindFirst`), `Mapping` (values, `DomainType`, `EntityMappingTable`, a class
description `ClassInfo`, instances as `Entity`, rows, the DML exceptions,
primary-key selection, Java's `toString`), `DatabaseRegistry`, `Repositories`,
`Queries` (criteria and statement descriptions), `Jdbc` (the template) and
`EntityManager`.

A class is described by whether it has an accessible
zero-argument constructor, its declared fields with the values that constructor
leaves in them, and the `EntityMappingTable` derived from it. An instance is its
class plus a map from field names to values. A result row is a map from column
names to values; `getObject` fails exactly for a column the map lacks. Whether
`field.set` accepts a value is given by a parameter of type `Assignability`.

When several domain types are flagged as the id, the constructor takes the
first (Repository.java:25-29). `find` has no not-found check of its own and
returns whatever `queryForObject` returns (EntityManagerImpl.java:36).

## Model

| member | source | states |
|---|---|---|
| `Streams.FindFirst` | src/main/java/persistence/sql/ddl/dialect/database/Database.java:34-37 | `filter(p).findFirst()`: the index found is in range, its element satisfies `p`, and no earlier element does; nothing is found exactly when no element satisfies `p` |
| `DatabaseRegistry.From` | src/main/java/persistence/sql/ddl/dialect/database/Database.java:33-38 | on success the variant's matcher accepts the name and no earlier variant's matcher does; failure happens exactly when no variant matches, and it is `NotFoundDatabase` |
| `DatabaseRegistry.FromResolvesExactName` | src/main/java/persistence/sql/ddl/dialect/database/Database.java:13-37 | for every name, resolution gives `H2` when the name is exactly "H2" and `NotFoundDatabase` otherwise |
| `DatabaseRegistry.NearMissesAreNotFound` | src/main/java/persistence/sql/ddl/dialect/database/Database.java:16 | matching is case- and whitespace-sensitive: "h2", "H2 " and "" are not found |
| `DatabaseRegistry.H2ResolvesToH2Dialect` | src/main/java/persistence/sql/ddl/dialect/database/Database.java:13-30 | resolving "H2" succeeds, and the variant's supplier is the H2 dialect fixed at construction |
| `DatabaseRegistry.Database.ProductNameMatchers` | src/main/java/persistence/sql/ddl/dialect/database/Database.java:15-17 | H2's matcher, exact equality with the enumerant's name; its behaviour is proved in `FromResolvesExactName` and `NearMissesAreNotFound` |
| `DatabaseRegistry.Database.GetDialectSupplier` | src/main/java/persistence/sql/ddl/dialect/database/Database.java:29-31 | the dialect fixed for a variant; `H2ResolvesToH2Dialect` proves that H2 supplies the H2 dialect |
| `Mapping.FirstIdDomainType` | src/main/java/persistence/sql/dml/repository/Repository.java:25-29 | the domain type returned is the first id-flagged one of the list; `NotFoundIdException` exactly when none is flagged |
| `Repositories.NewRepository` | src/main/java/persistence/sql/dml/repository/Repository.java:20-30 | a constructed repository keeps the class and its mapping table, and its primary key is a member of the list, is id-flagged and is the first such; construction fails with `NotFoundIdException` exactly when no domain type is id-flagged |
| `Repositories.CreateInstance` | src/main/java/persistence/sql/dml/repository/Repository.java:56-62 | the zero-argument constructor or `InstanceException`; its behaviour is proved in `MapRowWithoutConstructor`, `MapRowFailure` and `MapRowSuccess` (constructor values kept) |
| `Repositories.GetField` | src/main/java/persistence/sql/dml/repository/Repository.java:64-70 | the declared field or `NotFoundFieldException`; its behaviour is the first check of `Failure`, proved against the mapper in `MapRowFailure` |
| `Repositories.GetValue` | src/main/java/persistence/sql/dml/repository/Repository.java:72-78 | the row's column value or `InvalidFieldValueException`; the second check of `Failure`, proved in `MapRowFailure`, with the value read stated in `MapRowSuccess` |
| `Repositories.SetField` | src/main/java/persistence/sql/dml/repository/Repository.java:80-87 | the instance with the field assigned, or `FieldSetValueException`; the third check of `Failure`, proved in `MapRowFailure`, with the assigned value stated in `MapRowSuccess` |
| `Repositories.Assign` | src/main/java/persistence/sql/dml/repository/Repository.java:48-51 | the `forEach` body for one domain type; its outcome is characterised through `Failure` in `PopulateFailsAtFirstFailure` and `PopulateAssigns` |
| `Repositories.Populate` | src/main/java/persistence/sql/dml/repository/Repository.java:47-51 | the `forEach` over the domain types in list order; proved in `PopulateFailsAtFirstFailure` and `PopulateAssigns` |
| `Repositories.MapRow` | src/main/java/persistence/sql/dml/repository/Repository.java:43-54 | what `mapper` computes; `Mapper` is proved equal to it, and `MapRowFailure` and `MapRowSuccess` state its errors and result |
| `Repositories.Mapper` | src/main/java/persistence/sql/dml/repository/Repository.java:43-54 | the loop over the domain types returns exactly what `MapRow` gives for the repository's class and the row, errors included |
| `Repositories.PopulateFailsAtFirstFailure` | src/main/java/persistence/sql/dml/repository/Repository.java:47-86 | populating succeeds exactly when no domain type fails a check; it fails with `e` exactly when some domain type fails with `e` and none before it fails; per domain type the checks run field lookup, then row read, then assignment |
| `Repositories.PopulateAssigns` | src/main/java/persistence/sql/dml/repository/Repository.java:47-51 | after populating, every named field is declared, the instance gains no other field, fields no domain type names are unchanged, and with distinct names each domain type's field holds the row's value at its column |
| `Repositories.MapRowWithoutConstructor` | src/main/java/persistence/sql/dml/repository/Repository.java:45-61 | without a zero-argument constructor the mapper fails with `InstanceException`, whatever the row and fields |
| `Repositories.MapRowFailure` | src/main/java/persistence/sql/dml/repository/Repository.java:43-86 | the mapper succeeds exactly when the constructor exists and no domain type fails a check; it fails with `e` exactly when `e` is `InstanceException` and the constructor is missing, or the constructor exists and `e` is the first failing domain type's exception |
| `Repositories.MapRowSuccess` | src/main/java/persistence/sql/dml/repository/Repository.java:43-54 | a mapped instance has the class and exactly its declared fields; fields no domain type names keep the constructor's values; with distinct names each domain type's field holds the row's value at its column |
| `Mapping.ToJavaString` | src/main/java/persistence/sql/entity/manager/EntityManagerImpl.java:32 | `toString()` of an id or field value, with `NullPointerException` on null; stated through `FindQuery`, `GetFieldValue` and `LongToStringInjective` |
| `Mapping.LongToString` | src/main/java/persistence/sql/entity/manager/EntityManagerImpl.java:61 | `Long.toString` as decimal digits with an optional minus sign; proved injective in `LongToStringInjective` |
| `Mapping.LongToStringInjective` | src/main/java/persistence/sql/entity/manager/EntityManagerImpl.java:32 | the `toString` rendering of numeric ids is injective, so different ids give different criterion values |
| `EntityManager.FindQuery` | src/main/java/persistence/sql/entity/manager/EntityManagerImpl.java:27-35 | the select is over the class's mapping table and has exactly one criterion: the first id-flagged column, `EQUALS`, and `id.toString()`; a class without a primary key gives `NotFoundIdException`, and a null id gives a `NullPointerException` |
| `EntityManager.GetFieldValue` | src/main/java/persistence/sql/entity/manager/EntityManagerImpl.java:57-65 | for a well-formed entity, the string of the field's value is returned exactly when the class declares the field and its value is non-null; otherwise the result is `NotFoundIdException` |
| `EntityManager.RemoveQuery` | src/main/java/persistence/sql/entity/manager/EntityManagerImpl.java:46-53 | the delete is on the entity's table name and has exactly one criterion: the primary-key column, `EQUALS`, and the string of the entity's primary-key field value; it fails with `NotFoundIdException` exactly when there is no primary key or that field is missing or null |
| `EntityManager.EntityManagerImpl.constructor` | src/main/java/persistence/sql/entity/manager/EntityManagerImpl.java:20-24 | the manager holds the given template; the reference is a constant that no operation changes |
| `EntityManager.EntityManagerImpl.Find` | src/main/java/persistence/sql/entity/manager/EntityManagerImpl.java:26-37 | on success the template receives exactly one `queryForObject` call, with `FindQuery`'s select and the same class as the row mapper; on failure it receives nothing and the error is `FindQuery`'s |
| `EntityManager.EntityManagerImpl.Persist` | src/main/java/persistence/sql/entity/manager/EntityManagerImpl.java:39-43 | the template receives exactly one call: `execute` of the insert built from the entity |
| `EntityManager.EntityManagerImpl.Remove` | src/main/java/persistence/sql/entity/manager/EntityManagerImpl.java:45-55 | on success the template receives exactly one call, `execute` of `RemoveQuery`'s delete; when the key cannot be read it receives nothing and the error is `NotFoundIdException` |
| `EntityManager.RemoveMatchesFind` | src/main/java/persistence/sql/entity/manager/EntityManagerImpl.java:27-55 | when `remove(entity)` can run, `find` for the entity's own primary-key value succeeds, and its select uses exactly the criteria of that delete |
| `EntityManager.FindDistinguishesIds` | src/main/java/persistence/sql/entity/manager/EntityManagerImpl.java:30-35 | for a class with a primary key, different numeric ids give different selects |
| `EntityManager.MappedInstanceRemoval` | src/main/java/persistence/sql/entity/manager/EntityManagerImpl.java:47-54 | an instance built by the row mapper is well-formed, `remove` can run on it exactly when the row's primary-key column is non-null, and its delete uses the table name and the criteria of a `find` for that key |

## Left out

- The JDBC template is not part of this model beyond a ghost log of the calls it receives. Executing SQL, result-set cursors and database side effects are external I/O.
- The SQL text of `SelectQueryBuilder`, `InsertQueryBuilder`, `DeleteQueryBuilder` and `Criterias.toSql` is not part of this model. A statement is described by what it was built from.
- `EntityMappingTable.from` is not part of this model. Each class description carries its mapping table as data, so table-name derivation, primary-key annotations and SQL types are not modelled.
- `EntityMappingTable.getPkDomainTypes` is not part of this model. The model assumes it returns the first id-flagged domain type, the same selection the `Repository` constructor makes, and that it fails with `NotFoundIdException` when there is none.
- `EntityManager.EntityManagerImpl.Find`: `RepositoryMapper` and the row `queryForObject` reads are not part of this model. The object `find` returns is the parameter `answer`, and exceptions raised inside `queryForObject` (row count, mapping) are not modelled.
- Java reflection is replaced by maps: `getDeclaredField` succeeds exactly for declared field names (for `remove`, the entity must be well-formed: its map holds exactly its class's declared fields, as every Java object does), `newInstance` succeeds exactly when the class has a zero-argument constructor, and whether `field.set` accepts a value is the `Assignability` parameter, not Java's type rules.
- `Repositories.PopulateAssigns` and `Repositories.MapRowSuccess` state the value in each domain type's field only when the domain types name distinct fields. A Java class cannot declare two fields with one name.
- Java integer widths are not modelled: numbers are unbounded, and the decimal rendering of `toString` holds for every integer.
- Null entities passed to `persist` or `remove`, and a null database name, are not modelled. A null name would match no variant, like any other unmatched name.
- Repository's `jdbcTemplate` field and its abstract `findAll`, `findById`, `save`, `deleteAll` and `deleteById` have no bodies in the source and are left out.
- Dialect rendering (`H2Dialect.createTable`, pinned by one `CREATE TABLE` test) and the instantiation of the `Supplier<Dialect>` are left out. A dialect is a tag saying which dialect a variant yields.
- `Database.from` is a Dafny function, so its determinism (same name, same variant or same error) holds by construction and has no lemma of its own.
- `findAll` and `removeAll` are not operations of `EntityManagerImpl` and are not modelled.
