/**
 * ArticuloServiceImpl: every operation delegates to the repository it was
 * constructed with; the update forces the path id onto the entity before
 * saving it.
 */
module Service {
  import opened Wrappers
  import opened Model
  import opened Repository

  class ArticuloServiceImpl {
    const repository: ArticuloRepository

    constructor (repository: ArticuloRepository)
      ensures this.repository == repository
    {
      this.repository := repository;
    }

    function ListarArticulos(): (rs: set<Row>)
      reads repository
      requires repository.Valid()
      ensures IsWholeTable(rs, repository.table)
    {
      repository.FindAll()
    }

    function ObtenerArticuloPorId(id: int): (r: Option<Row>)
      reads repository
      requires repository.Valid()
      ensures r.Some? <==> id in repository.table
      ensures r.Some? ==> r.value == repository.table[id] && r.value.id == Some(id)
    {
      repository.FindById(id)
    }

    /** What is saved can be fetched back by the id it was saved under; no other row changes. */
    method GuardarArticulo(a: Articulo) returns (saved: Row)
      requires repository.Valid()
      modifies repository, a
      ensures repository.Valid()
      ensures saved.id.Some? && ObtenerArticuloPorId(saved.id.value) == Some(saved)
      ensures saved == old(a.State()).(id := saved.id)
      ensures repository.table == old(repository.table)[saved.id.value := saved]
      ensures repository.nextId == old(repository.nextId) + (if old(repository.Holds(a.id)) then 0 else 1)
      ensures old(repository.Holds(a.id)) ==> saved.id == old(a.id) && unchanged(a)
      ensures !old(repository.Holds(a.id)) ==>
                saved.id == Some(old(repository.nextId)) && saved.id.value !in old(repository.table)
      ensures !old(repository.Holds(a.id)) && old(a.id).None? ==> a.State() == saved
      ensures !old(repository.Holds(a.id)) && old(a.id).Some? ==> unchanged(a)
    {
      saved := repository.Save(a);
    }

    /**
     * The entity is given the id first, whatever id it carried. For a stored
     * id its nombre, precio and imagen then replace the stored ones in full;
     * for an id that is not stored, the save inserts it as a new row.
     */
    method ActualizarArticulo(id: int, a: Articulo) returns (saved: Row)
      requires repository.Valid()
      modifies repository, a
      ensures repository.Valid()
      ensures a.State() == old(a.State()).(id := Some(id))
      ensures repository.nextId == old(repository.nextId) + (if id in old(repository.table) then 0 else 1)
      ensures saved == old(a.State()).(id := saved.id)
      ensures id in old(repository.table) ==>
                saved.id == Some(id) && repository.table == old(repository.table)[id := saved]
      ensures id !in old(repository.table) ==>
                && saved.id == Some(old(repository.nextId))
                && repository.table == old(repository.table)[old(repository.nextId) := saved]
    {
      a.SetId(Some(id));
      saved := repository.Save(a);
    }

    /** Afterwards the id is not found; every other row is as it was. */
    method EliminarArticulo(id: int)
      requires repository.Valid()
      modifies repository
      ensures repository.Valid()
      ensures ObtenerArticuloPorId(id).None?
      ensures repository.table == old(repository.table) - {id} && repository.nextId == old(repository.nextId)
    {
      repository.DeleteById(id);
    }

    // The searches filter nothing themselves: each result is exactly the rows
    // that the WHERE clause of its repository query selects.

    function BuscarPorNombre(nombre: string): (rs: set<Row>)
      reads repository
      requires repository.Valid()
      ensures forall r :: r in rs <==> r in ListarArticulos() && NombreContainingIgnoreCase(r, nombre)
    {
      repository.FindByNombreContainingIgnoreCase(nombre)
    }

    function BuscarPorPrecioMinimo(precioMinimo: real): (rs: set<Row>)
      reads repository
      requires repository.Valid()
      ensures forall r :: r in rs <==> r in ListarArticulos() && PrecioGreaterThanEqual(r, precioMinimo)
    {
      repository.FindByPrecioGreaterThanEqual(precioMinimo)
    }

    function BuscarPorPrecioMaximo(precioMaximo: real): (rs: set<Row>)
      reads repository
      requires repository.Valid()
      ensures forall r :: r in rs <==> r in ListarArticulos() && PrecioLessThanEqual(r, precioMaximo)
    {
      repository.FindByPrecioLessThanEqual(precioMaximo)
    }

    function BuscarPorPrecioEntre(precioMinimo: real, precioMaximo: real): (rs: set<Row>)
      reads repository
      requires repository.Valid()
      ensures forall r :: r in rs <==> r in ListarArticulos() && PrecioBetween(r, precioMinimo, precioMaximo)
    {
      repository.FindByPrecioBetween(precioMinimo, precioMaximo)
    }

    function BuscarPorNombreYPrecioEntre(nombre: string, precioMinimo: real, precioMaximo: real): (rs: set<Row>)
      reads repository
      requires repository.Valid()
      ensures forall r :: r in rs <==>
                r in ListarArticulos() && NombreContainingIgnoreCase(r, nombre) && PrecioBetween(r, precioMinimo, precioMaximo)
    {
      repository.FindByNombreContainingIgnoreCaseAndPrecioBetween(nombre, precioMinimo, precioMaximo)
    }
  }
}
