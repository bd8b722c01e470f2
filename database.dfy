/**
 * The closed registry of supported database products (`enum Database`): each
 * variant carries the dialect it supplies and a matcher on product names, and
 * `From` resolves a product name to the first variant whose matcher accepts it.
 */
module DatabaseRegistry {
  import opened Wrappers
  import Streams

  /** The SQL dialects a variant can supply; rendering is not modelled. */
  datatype Dialect = H2Dialect

  datatype Database = H2 {

    /** `Enum.name()`: the enumerant's identifier. */
    function Name(): string {
      match this
      case H2 => "H2"
    }

    /** H2's matcher: exact, case-sensitive equality with the enumerant's name. */
    predicate ProductNameMatchers(databaseName: string) {
      match this
      case H2 => Name() == databaseName
    }

    /** The dialect fixed for the variant when the enum is constructed. */
    function GetDialectSupplier(): Dialect {
      match this
      case H2 => H2Dialect
    }
  }

  /** `Database.values()`, in declaration order. */
  const Values: seq<Database> := [H2]

  /** The product name reported for a connection. */
  datatype DialectResolution = DialectResolution(databaseName: string)

  datatype DatabaseError = NotFoundDatabase

  /** No variant before position `i` of `vs` accepts `name`. */
  ghost predicate NoEarlierMatch(vs: seq<Database>, i: int, name: string) {
    forall j :: 0 <= j < i && j < |vs| ==> !vs[j].ProductNameMatchers(name)
  }

  /**
   * `Database.from`: the earliest variant, in declaration order, whose matcher
   * accepts the product name; NotFoundDatabase when none does.
   */
  function From(dialectResolution: DialectResolution): (r: Result<Database, DatabaseError>)
    ensures r.Ok? ==> r.value.ProductNameMatchers(dialectResolution.databaseName)
    ensures r.Ok? ==> exists i :: 0 <= i < |Values| && Values[i] == r.value &&
                                  NoEarlierMatch(Values, i, dialectResolution.databaseName)
    ensures r.Err? <==> forall j :: 0 <= j < |Values| ==> !Values[j].ProductNameMatchers(dialectResolution.databaseName)
    ensures r.Err? ==> r.error == NotFoundDatabase
  {
    var name := dialectResolution.databaseName;
    match Streams.FindFirst(Values, (d: Database) => d.ProductNameMatchers(name))
    case Some(i) => Ok(Values[i])
    case None => Err(NotFoundDatabase)
  }

  /** With H2 as the only variant, exactly the name "H2" resolves, and to H2. */
  lemma FromResolvesExactName(dialectResolution: DialectResolution)
    ensures From(dialectResolution) ==
      if dialectResolution.databaseName == "H2" then Ok(H2) else Err(NotFoundDatabase)
  {
  }

  /** Matching is case- and whitespace-sensitive. */
  lemma NearMissesAreNotFound()
    ensures From(DialectResolution("h2")) == Err(NotFoundDatabase)
    ensures From(DialectResolution("H2 ")) == Err(NotFoundDatabase)
    ensures From(DialectResolution("")) == Err(NotFoundDatabase)
  {
  }

  /** Resolving "H2" yields the variant whose supplier gives the H2 dialect. */
  lemma H2ResolvesToH2Dialect()
    ensures From(DialectResolution("H2")).Ok?
    ensures From(DialectResolution("H2")).value.GetDialectSupplier() == H2Dialect
  {
  }
}
