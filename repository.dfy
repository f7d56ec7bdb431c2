/**
 * ArticuloRepository: the store behind the service, as an id -> row table
 * with an IDENTITY counter, the inherited findAll / findById / save /
 * deleteById, and the five derived queries whose meaning their names fix.
 */
module Repository {
  import opened Wrappers
  import opened Model
  import opened Text

  // The WHERE clauses of the derived queries. A NULL column never matches.

  predicate NombreContainingIgnoreCase(r: Row, nombre: string) {
    r.nombre.Some? && ContainsIgnoreCase(r.nombre.value, nombre)
  }

  predicate PrecioGreaterThanEqual(r: Row, min: real) {
    r.precio.Some? && min <= r.precio.value
  }

  predicate PrecioLessThanEqual(r: Row, max: real) {
    r.precio.Some? && r.precio.value <= max
  }

  /** SQL BETWEEN: inclusive at both ends. */
  predicate PrecioBetween(r: Row, min: real, max: real) {
    r.precio.Some? && min <= r.precio.value <= max
  }

  /** rs holds exactly the rows of table, and each of them under its own id. */
  ghost predicate IsWholeTable(rs: set<Row>, table: map<int, Row>) {
    && (forall k :: k in table ==> table[k] in rs)
    && (forall r :: r in rs ==> r.id.Some? && r.id.value in table && table[r.id.value] == r)
  }

  class ArticuloRepository {
    var table: map<int, Row>
    /** The next value of the IDENTITY column. */
    var nextId: int

    /** Every row is stored under its own id, and every id was handed out by the counter. */
    ghost predicate Valid()
      reads this
    {
      && 1 <= nextId
      && forall k :: k in table ==> 1 <= k < nextId && table[k].id == Some(k)
    }

    /** Every stored row meets the column constraints. */
    ghost predicate RowsSatisfyColumns()
      reads this
    {
      forall k :: k in table ==> SatisfiesColumns(table[k])
    }

    /** The entity's id is set and names a stored row: save replaces rather than inserts. */
    predicate Holds(id: Option<int>)
      reads this
    {
      id.Some? && id.value in table
    }

    constructor ()
      ensures Valid() && table == map[] && nextId == 1
    {
      table := map[];
      nextId := 1;
    }

    function FindAll(): (rs: set<Row>)
      reads this
      requires Valid()
      ensures IsWholeTable(rs, table)
    {
      set k | k in table :: table[k]
    }

    function FindById(id: int): (r: Option<Row>)
      reads this
      requires Valid()
      ensures r.Some? <==> id in table
      ensures r.Some? ==> r.value == table[id] && r.value.id == Some(id)
    {
      if id in table then Some(table[id]) else None
    }

    /**
     * An entity whose id is set and stored is merged: its row replaces the
     * stored one and the argument is left as it is. Any other entity is
     * inserted under the next IDENTITY value, which no stored row uses; when
     * its id was null it is persisted in place and receives that id.
     */
    method Save(a: Articulo) returns (saved: Row)
      requires Valid()
      modifies this, a
      ensures Valid()
      ensures saved.id.Some? && table == old(table)[saved.id.value := saved]
      ensures saved == old(a.State()).(id := saved.id)
      ensures old(Holds(a.id)) ==> saved.id == old(a.id) && nextId == old(nextId) && unchanged(a)
      ensures !old(Holds(a.id)) ==>
                && saved.id == Some(old(nextId))
                && old(nextId) !in old(table)
                && nextId == old(nextId) + 1
      ensures !old(Holds(a.id)) && old(a.id).None? ==> a.State() == saved
      ensures !old(Holds(a.id)) && old(a.id).Some? ==> unchanged(a)
      ensures old(RowsSatisfyColumns()) && SatisfiesColumns(old(a.State())) ==> RowsSatisfyColumns()
    {
      if a.id.Some? && a.id.value in table {
        saved := a.State();
        table := table[a.id.value := saved];
      } else {
        if a.id.None? {
          a.SetId(Some(nextId));
        }
        saved := a.State().(id := Some(nextId));
        table := table[nextId := saved];
        nextId := nextId + 1;
      }
    }

    /** Removes the row with this id; an absent id changes nothing. */
    method DeleteById(id: int)
      requires Valid()
      modifies this
      ensures Valid()
      ensures table == old(table) - {id} && nextId == old(nextId)
      ensures old(RowsSatisfyColumns()) ==> RowsSatisfyColumns()
    {
      table := table - {id};
    }

    function FindByNombreContainingIgnoreCase(nombre: string): (rs: set<Row>)
      reads this
      requires Valid()
      ensures rs <= FindAll()
      ensures forall k :: k in table ==> (table[k] in rs <==> NombreContainingIgnoreCase(table[k], nombre))
    {
      set k | k in table && NombreContainingIgnoreCase(table[k], nombre) :: table[k]
    }

    function FindByPrecioGreaterThanEqual(min: real): (rs: set<Row>)
      reads this
      requires Valid()
      ensures rs <= FindAll()
      ensures forall k :: k in table ==> (table[k] in rs <==> PrecioGreaterThanEqual(table[k], min))
    {
      set k | k in table && PrecioGreaterThanEqual(table[k], min) :: table[k]
    }

    function FindByPrecioLessThanEqual(max: real): (rs: set<Row>)
      reads this
      requires Valid()
      ensures rs <= FindAll()
      ensures forall k :: k in table ==> (table[k] in rs <==> PrecioLessThanEqual(table[k], max))
    {
      set k | k in table && PrecioLessThanEqual(table[k], max) :: table[k]
    }

    function FindByPrecioBetween(min: real, max: real): (rs: set<Row>)
      reads this
      requires Valid()
      ensures rs <= FindAll()
      ensures forall k :: k in table ==> (table[k] in rs <==> PrecioBetween(table[k], min, max))
    {
      set k | k in table && PrecioBetween(table[k], min, max) :: table[k]
    }

    function FindByNombreContainingIgnoreCaseAndPrecioBetween(nombre: string, min: real, max: real): (rs: set<Row>)
      reads this
      requires Valid()
      ensures rs <= FindAll()
      ensures forall k :: k in table ==>
                (table[k] in rs <==> NombreContainingIgnoreCase(table[k], nombre) && PrecioBetween(table[k], min, max))
    {
      set k | k in table && NombreContainingIgnoreCase(table[k], nombre) && PrecioBetween(table[k], min, max) :: table[k]
    }
  }

  /** The between query is the intersection of the two one-sided queries. */
  lemma BetweenIsIntersection(repo: ArticuloRepository, min: real, max: real)
    requires repo.Valid()
    ensures repo.FindByPrecioBetween(min, max)
         == repo.FindByPrecioGreaterThanEqual(min) * repo.FindByPrecioLessThanEqual(max)
  {
  }

  /** The combined query is the intersection of the name query and the between query. */
  lemma CombinedIsIntersection(repo: ArticuloRepository, nombre: string, min: real, max: real)
    requires repo.Valid()
    ensures repo.FindByNombreContainingIgnoreCaseAndPrecioBetween(nombre, min, max)
         == repo.FindByNombreContainingIgnoreCase(nombre) * repo.FindByPrecioBetween(min, max)
  {
  }

  /** A range whose lower bound exceeds its upper bound finds nothing. */
  lemma InvertedRangeFindsNothing(repo: ArticuloRepository, min: real, max: real)
    requires repo.Valid() && max < min
    ensures repo.FindByPrecioBetween(min, max) == {}
  {
  }

  /** The empty search text finds every row whose nombre is not null. */
  lemma EmptyNombreFindsEveryNamedRow(repo: ArticuloRepository)
    requires repo.Valid()
    ensures repo.FindByNombreContainingIgnoreCase("") == set r | r in repo.FindAll() && r.nombre.Some?
  {
  }
}
