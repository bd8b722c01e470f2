/**
 * Plain-data stand-ins for what the ORM obtains through Java reflection and JDBC:
 * field and column values, the per-field metadata (DomainType), the per-class
 * metadata (EntityMappingTable), a description of a class, its instances, a
 * result row, and the exceptions of the DML layer.
 */
module Mapping {
  import opened Wrappers
  import Streams

  /** A field or column value: Java's Long and Integer are `Number`, String is `Text`,
      and `Null` is Java's null (SQL NULL when read from a row). */
  datatype Value = Null | Number(n: int) | Text(s: string)

  /** One mapped field: the Java field name, its column name and whether it is the id. */
  datatype DomainType = DomainType(name: string, columnName: string, isExistsId: bool)

  /** Table name and the domain types of a class, in declaration order. */
  datatype EntityMappingTable = EntityMappingTable(tableName: string, domainTypeList: seq<DomainType>)

  /**
   * What reflection sees of an entity class: whether it has an
   * accessible zero-argument constructor, its declared fields with the values that
   * constructor leaves in them, and the table that `EntityMappingTable.from` derives.
   */
  datatype ClassInfo = ClassInfo(
    hasNoArgConstructor: bool,
    initialFields: map<string, Value>,
    mappingTable: EntityMappingTable)
  {
    /** `getDeclaredField(name)` succeeds. */
    predicate DeclaresField(name: string) {
      name in initialFields
    }
  }

  /** An object of class `cls`; `fields` maps each declared field to its current value. */
  datatype Entity = Entity(cls: ClassInfo, fields: map<string, Value>) {
    /** The object holds exactly the fields its class declares. */
    predicate WellFormed() {
      fields.Keys == cls.initialFields.Keys
    }
  }

  /** One result row: `getObject(column)` succeeds exactly for the keys of the map. */
  type Row = map<string, Value>

  /** The exceptions of the DML layer, one per cause. */
  datatype PersistenceException =
    | NotFoundIdException
    | InstanceException
    | NotFoundFieldException
    | InvalidFieldValueException
    | FieldSetValueException
    | NullPointerException

  /** `k` is the index of the first domain type flagged as the id. */
  ghost predicate IsFirstIdAt(dts: seq<DomainType>, k: int) {
    0 <= k < |dts| && dts[k].isExistsId && forall j :: 0 <= j < k ==> !dts[j].isExistsId
  }

  /** Some domain type is flagged as the id. */
  ghost predicate HasId(dts: seq<DomainType>) {
    exists k :: 0 <= k < |dts| && dts[k].isExistsId
  }

  /** The first id-flagged domain type of the list, or NotFoundIdException when none is flagged. */
  function FirstIdDomainType(dts: seq<DomainType>): (r: Result<DomainType, PersistenceException>)
    ensures r.Ok? ==> exists k :: IsFirstIdAt(dts, k) && dts[k] == r.value
    ensures r.Err? <==> !HasId(dts)
    ensures r.Err? ==> r.error == NotFoundIdException
  {
    match Streams.FindFirst(dts, (d: DomainType) => d.isExistsId)
    case Some(k) => Ok(dts[k])
    case None => Err(NotFoundIdException)
  }

  function DigitChar(d: nat): char
    requires d < 10
  {
    ('0' as int + d) as char
  }

  /** Decimal digits of a non-negative number, most significant first, without leading zeros. */
  function NatToString(n: nat): (s: string)
    ensures |s| >= 1
    ensures forall i :: 0 <= i < |s| ==> '0' <= s[i] <= '9'
    ensures n >= 10 ==> |s| >= 2
    decreases n
  {
    if n < 10 then [DigitChar(n)] else NatToString(n / 10) + [DigitChar(n % 10)]
  }

  /** `Long.toString`: an optional minus sign followed by the decimal digits. */
  function LongToString(n: int): string {
    if n < 0 then "-" + NatToString(-n) else NatToString(n)
  }

  /** `value.toString()`; calling it on null raises a NullPointerException, written None. */
  function ToJavaString(v: Value): Option<string> {
    match v
    case Null => None
    case Number(n) => Some(LongToString(n))
    case Text(s) => Some(s)
  }

  /** Distinct numbers have distinct decimal renderings. */
  lemma {:induction false} NatToStringInjective(a: nat, b: nat)
    requires NatToString(a) == NatToString(b)
    ensures a == b
  {
    var s := NatToString(a);
    if a >= 10 && b >= 10 {
      var pa, pb := NatToString(a / 10), NatToString(b / 10);
      assert s == pa + [DigitChar(a % 10)] == pb + [DigitChar(b % 10)];
      assert pa == s[..|s| - 1] == pb;
      assert DigitChar(a % 10) == s[|s| - 1] == DigitChar(b % 10);
      NatToStringInjective(a / 10, b / 10);
    }
  }

  /** A rendering starts with a minus sign exactly when the number is negative. */
  lemma LongToStringSign(n: int)
    ensures |LongToString(n)| >= 1
    ensures LongToString(n)[0] == '-' <==> n < 0
  {
  }

  /** Distinct longs have distinct `toString` renderings. */
  lemma LongToStringInjective(a: int, b: int)
    requires LongToString(a) == LongToString(b)
    ensures a == b
  {
    var s := LongToString(a);
    LongToStringSign(a);
    LongToStringSign(b);
    if a < 0 && b < 0 {
      assert NatToString(-a) == s[1..] == NatToString(-b);
      NatToStringInjective(-a, -b);
    } else if a >= 0 && b >= 0 {
      NatToStringInjective(a, b);
    }
  }
}
